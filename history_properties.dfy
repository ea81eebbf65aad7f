/** What the history reconstruction of vault/counters.go:31-66 promises, stated
    over the specification functions `HistoryWith`, `History` and
    `HistoryAsWritten`: every entry is a stored month, every stored month is an
    entry, a failure anywhere aborts the whole reconstruction, and the
    reconstruction with sorted month listings is oldest first. */
module HistoryProperties {
  import opened Wrappers
  import opened Strings
  import opened PeriodKey
  import opened StorageView
  import opened Counters

  /** The storage keys of the months of `dated`, in order. */
  function Keys(dated: seq<DatedRequestCounter>): (r: seq<string>)
    ensures |r| == |dated|
  {
    seq(|dated|, i requires 0 <= i < |dated| => Format(dated[i].startTime))
  }

  lemma KeysAppend(a: seq<DatedRequestCounter>, b: seq<DatedRequestCounter>)
    ensures Keys(a + b) == Keys(a) + Keys(b)
  {
    forall i | 0 <= i < |a + b|
      ensures Keys(a + b)[i] == (Keys(a) + Keys(b))[i]
    {
      if i < |a| {
        assert (a + b)[i] == a[i];
      } else {
        assert (a + b)[i] == b[i - |a|];
      }
    }
  }

  /** The view is one the reconstruction can read all the way through: the
      root listing works, and every stored key is a month key "YYYY/MM" whose
      record can be read and decoded and whose year directory can be listed. */
  ghost predicate Loadable(v: CounterView) {
    && "" !in v.faults.list
    && forall k | k in v.entries ::
         && Parse(k).Some?
         && k !in v.faults.get
         && v.entries[k].Encoded?
         && k[..5] !in v.faults.list
  }

  // ----- one year directory -----

  /** Entry `i` of a year's block comes from month `i` of the listing: the
      path `year + months[i]` parses to its start time and holds its record. */
  lemma {:induction false} MonthEntriesAligned(v: CounterView, year: string, months: seq<string>)
    requires MonthEntries(v, year, months).Ok?
    ensures var ds := MonthEntries(v, year, months).value;
      && |ds| == |months|
      && forall i | 0 <= i < |months| ::
           && Parse(year + months[i]) == Some(ds[i].startTime)
           && year + months[i] in v.entries
           && year + months[i] !in v.faults.get
           && v.entries[year + months[i]] == Encoded(ds[i].counter)
  {
    if months != [] {
      var ds := MonthEntries(v, year, months).value;
      var rest := MonthEntries(v, year, months[1..]);
      MonthEntriesAligned(v, year, months[1..]);
      assert ds == [ds[0]] + rest.value;
      forall i | 1 <= i < |months|
        ensures ds[i] == rest.value[i - 1] && months[i] == months[1..][i - 1]
      {
      }
    }
  }

  /** A listed year directory and a listed month name that together parse
      are "YYYY/" and "MM". */
  lemma FolderAndMonth(year: string, month: string)
    requires IsSegment(year) && IsSegment(month) && Parse(year + month).Some?
    ensures |year| == 5 && |month| == 2
  {
    var s := year + month;
    assert s[4] == '/';
    forall i | 0 <= i < |s| - 1 && i != |year| - 1
      ensures s[i] != '/'
    {
      if i >= |year| {
        assert s[i] == month[i - |year|];
      }
    }
  }

  /** A listed month name that parses after its directory names a stored key. */
  lemma ListedMonthStored(v: CounterView, year: string, month: string)
    requires month in Children(v.order, year) && Parse(year + month).Some?
    ensures year + month in v.order
  {
    ChildShape(v.order, year, month);
    var s := year + month;
    if |month| > 0 {
      assert month[|month| - 1] == s[6];
      assert IsDigit(s[5..][1]);
    }
  }

  /** Sorting a listing keeps its names. */
  lemma ArrangeMembers(listed: seq<string>, sortMonths: bool, m: string)
    ensures m in Arrange(listed, sortMonths) <==> m in listed
  {
    assert m in Sort(listed) <==> m in multiset(Sort(listed));
  }

  /** No entry of a year's block dereferences a missing record: a listed
      month whose path parses is a stored key. */
  lemma {:induction false} MonthEntriesNoNil(v: CounterView, year: string, months: seq<string>)
    requires forall k | k in v.order :: k in v.entries
    requires forall m | m in months :: m in Children(v.order, year)
    ensures MonthEntries(v, year, months).Err? ==> !MonthEntries(v, year, months).error.NilDereference?
  {
    if months != [] {
      var fullpath := year + months[0];
      if Parse(fullpath).Some? {
        ListedMonthStored(v, year, months[0]);
      }
      MonthEntriesNoNil(v, year, months[1..]);
    }
  }

  // ----- all year directories -----

  /** The record `d` is what is stored under its month's key, and that key
      reads back. */
  ghost predicate Recorded(v: CounterView, d: DatedRequestCounter) {
    var key := Format(d.startTime);
    && InKeyRange(d.startTime)
    && key in v.entries
    && key !in v.faults.get
    && v.entries[key] == Encoded(d.counter)
  }

  /** The first year directory's step, with its listing and block succeeding. */
  lemma YearEntriesSplit(v: CounterView, years: seq<string>, sortMonths: bool)
    requires years != [] && YearEntries(v, years, sortMonths).Ok?
    ensures ListIn(v, years[0]).Ok?
    ensures MonthEntries(v, years[0], Arrange(ListIn(v, years[0]).value, sortMonths)).Ok?
    ensures YearEntries(v, years[1..], sortMonths).Ok?
    ensures YearEntries(v, years, sortMonths).value
            == MonthEntries(v, years[0], Arrange(ListIn(v, years[0]).value, sortMonths)).value
               + YearEntries(v, years[1..], sortMonths).value
  {
    YearStep(v, years, 0, sortMonths);
    assert years[0..] == years;
  }

  lemma {:induction false} YearEntriesStored(v: CounterView, years: seq<string>, sortMonths: bool)
    requires YearEntries(v, years, sortMonths).Ok?
    ensures var ds := YearEntries(v, years, sortMonths).value;
      forall i | 0 <= i < |ds| :: Recorded(v, ds[i])
  {
    if years != [] {
      YearEntriesSplit(v, years, sortMonths);
      var months := Arrange(ListIn(v, years[0]).value, sortMonths);
      var block := MonthEntries(v, years[0], months).value;
      var rest := YearEntries(v, years[1..], sortMonths).value;
      MonthEntriesAligned(v, years[0], months);
      YearEntriesStored(v, years[1..], sortMonths);
      forall i | 0 <= i < |block|
        ensures Recorded(v, block[i])
      {
        FormatParse(years[0] + months[i]);
      }
    }
  }

  lemma {:induction false} YearEntriesNoNil(v: CounterView, years: seq<string>, sortMonths: bool)
    requires forall k | k in v.order :: k in v.entries
    ensures YearEntries(v, years, sortMonths).Err? ==> !YearEntries(v, years, sortMonths).error.NilDereference?
  {
    if years != [] {
      YearStep(v, years, 0, sortMonths);
      assert years[0..] == years;
      if ListIn(v, years[0]).Ok? {
        var listed := ListIn(v, years[0]).value;
        forall m | m in Arrange(listed, sortMonths)
          ensures m in Children(v.order, years[0])
        {
          ArrangeMembers(listed, sortMonths, m);
        }
        MonthEntriesNoNil(v, years[0], Arrange(listed, sortMonths));
        YearEntriesNoNil(v, years[1..], sortMonths);
      }
    }
  }

  /** Every month listed under a year directory that the reconstruction
      visited is among the keys of its entries. */
  lemma {:induction false} YearEntriesCover(v: CounterView, years: seq<string>, sortMonths: bool, year: string, month: string)
    requires YearEntries(v, years, sortMonths).Ok? && year in years
    ensures ListIn(v, year).Ok?
    ensures month in ListIn(v, year).value ==> year + month in Keys(YearEntries(v, years, sortMonths).value)
  {
    YearEntriesSplit(v, years, sortMonths);
    var months := Arrange(ListIn(v, years[0]).value, sortMonths);
    var block := MonthEntries(v, years[0], months).value;
    var rest := YearEntries(v, years[1..], sortMonths).value;
    KeysAppend(block, rest);
    if year == years[0] {
      if month in ListIn(v, year).value {
        ArrangeMembers(ListIn(v, year).value, sortMonths, month);
        MonthEntriesAligned(v, year, months);
        var i :| 0 <= i < |months| && months[i] == month;
        FormatParse(year + month);
        assert Keys(block)[i] == year + month;
      }
    } else {
      YearEntriesCover(v, years[1..], sortMonths, year, month);
    }
  }

  /** A month key "YYYY/MM" lists as the directory "YYYY/" holding "MM". */
  lemma MonthKeySegments(k: string)
    requires Parse(k).Some?
    ensures FirstSegment(k) == k[..5] && FirstSegment(k[5..]) == k[5..]
  {
    var c := FirstSegment(k);
    assert IsDigit(k[..4][0]) && IsDigit(k[..4][1]) && IsDigit(k[..4][2]) && IsDigit(k[..4][3]);
    assert IsDigit(k[5..][0]) && IsDigit(k[5..][1]);
    assert c != k by {
      assert k[4] == '/';
    }
    assert k[..|c|] == c;
    assert |c| == 5;
    assert '/' !in k[5..];
  }

  /** How a reconstruction that succeeds was put together. */
  lemma HistoryWithOk(v: CounterView, sortMonths: bool)
    requires HistoryWith(v, sortMonths).Ok?
    ensures ListIn(v, "").Ok?
    ensures HistoryWith(v, sortMonths).value.None? <==> ListIn(v, "").value == []
    ensures ListIn(v, "").value != [] ==>
      && YearEntries(v, Sort(ListIn(v, "").value), sortMonths).Ok?
      && HistoryWith(v, sortMonths).value.value.dated == YearEntries(v, Sort(ListIn(v, "").value), sortMonths).value
  {
  }

  lemma PrefixAfter(a: string, b: string, c: string)
    requires b <= c
    ensures a + b <= a + c
  {
    assert forall i | 0 <= i < |b| :: (a + b)[|a| + i] == b[i] == c[i] == (a + c)[|a| + i];
  }

  /** The year directory of a stored key is among the sorted root listing a
      successful reconstruction walks. */
  lemma StoredYearListed(v: CounterView, sortMonths: bool, k: string) returns (years: seq<string>)
    requires HistoryWith(v, sortMonths).Ok? && k in v.order
    ensures ListIn(v, "").Ok? && years == Sort(ListIn(v, "").value)
    ensures FirstSegment(k) in years
    ensures HistoryWith(v, sortMonths).value.Some?
    ensures YearEntries(v, years, sortMonths).Ok?
    ensures HistoryWith(v, sortMonths).value.value.dated == YearEntries(v, years, sortMonths).value
  {
    HistoryWithOk(v, sortMonths);
    var listed := ListIn(v, "").value;
    assert k[|""|..] == k;
    ChildOfKey(v.order, "", k);
    assert FirstSegment(k) in listed;
    years := Sort(listed);
    assert FirstSegment(k) in multiset(listed);
  }

  /** The first two segments of a path are a prefix of it. */
  lemma TwoSegments(k: string)
    ensures FirstSegment(k) + FirstSegment(k[|FirstSegment(k)|..]) <= k
  {
    var year := FirstSegment(k);
    PrefixAfter(year, FirstSegment(k[|year|..]), k[|year|..]);
    assert year + k[|year|..] == k;
  }

  /** The key that a stored key under a walked year directory contributes to
      the walk: its first segment followed by the first segment of what
      follows. */
  lemma StoredKeyInYears(v: CounterView, years: seq<string>, sortMonths: bool, k: string) returns (year: string, month: string)
    requires YearEntries(v, years, sortMonths).Ok? && k in v.order && FirstSegment(k) in years
    ensures year == FirstSegment(k) && ListIn(v, year).Ok?
    ensures month == FirstSegment(k[|year|..]) && year + month <= k
    ensures year + month in Keys(YearEntries(v, years, sortMonths).value)
  {
    year := FirstSegment(k);
    month := FirstSegment(k[|year|..]);
    ChildOfKey(v.order, year, k);
    YearEntriesCover(v, years, sortMonths, year, month);
    TwoSegments(k);
  }

  /** The same for the whole reconstruction and any stored key. */
  lemma StoredKeyVisited(v: CounterView, sortMonths: bool, k: string) returns (year: string, month: string)
    requires HistoryWith(v, sortMonths).Ok? && k in v.order
    ensures HistoryWith(v, sortMonths).value.Some?
    ensures year == FirstSegment(k) && ListIn(v, year).Ok?
    ensures month == FirstSegment(k[|year|..]) && year + month <= k
    ensures year + month in Keys(HistoryWith(v, sortMonths).value.value.dated)
  {
    var years := StoredYearListed(v, sortMonths, k);
    year, month := StoredKeyInYears(v, years, sortMonths, k);
  }

  // ----- the history -----

  /** Soundness: every entry of the history is the record stored under its
      month's key, and that key reads back. */
  lemma HistoryEntriesStored(v: CounterView, sortMonths: bool)
    requires HistoryWith(v, sortMonths).Ok? && HistoryWith(v, sortMonths).value.Some?
    ensures var dated := HistoryWith(v, sortMonths).value.value.dated;
      forall i | 0 <= i < |dated| :: Recorded(v, dated[i])
  {
    HistoryWithOk(v, sortMonths);
    YearEntriesStored(v, Sort(ListIn(v, "").value), sortMonths);
  }

  /** A reconstruction that succeeds visited every stored key, and every
      stored key is a month key inside a listable year directory. */
  lemma StoredKeyLoaded(v: CounterView, sortMonths: bool, k: string)
    requires v.Valid() && HistoryWith(v, sortMonths).Ok? && k in v.entries
    ensures HistoryWith(v, sortMonths).value.Some?
    ensures Parse(k).Some? && k[..5] !in v.faults.list
    ensures k in Keys(HistoryWith(v, sortMonths).value.value.dated)
  {
    var year, month := StoredKeyVisited(v, sortMonths, k);
    var dated := HistoryWith(v, sortMonths).value.value.dated;
    HistoryEntriesStored(v, sortMonths);
    var i :| 0 <= i < |dated| && Keys(dated)[i] == year + month;
    assert Recorded(v, dated[i]);
    ParseFormat(dated[i].startTime);
    WholeMonthKey(k, year, month);
  }

  /** When the first two segments of a path parse as a month key, they are
      the whole path. */
  lemma WholeMonthKey(k: string, year: string, month: string)
    requires year == FirstSegment(k) && month == FirstSegment(k[|year|..])
    requires year + month <= k && Parse(year + month).Some?
    ensures k == year + month
  {
    FolderAndMonth(year, month);
    assert IsDigit(month[1]) by {
      assert month[1] == (year + month)[5..][1];
    }
    assert month == k[|year|..];
    assert year + k[|year|..] == k;
  }

  /** Every listed month whose key is stored and readable, under a directory
      the reconstruction reaches, yields an entry. */
  lemma {:induction false} MonthEntriesSucceed(v: CounterView, year: string, months: seq<string>)
    requires forall m | m in months ::
      && year + m in v.entries && year + m !in v.faults.get
      && v.entries[year + m].Encoded? && Parse(year + m).Some?
    ensures MonthEntries(v, year, months).Ok?
  {
    if months != [] {
      MonthEntriesSucceed(v, year, months[1..]);
    }
  }

  /** In a loadable view, every name a listing under the root returns is a
      year directory "YYYY/" of some stored key. */
  lemma ListedYear(v: CounterView, year: string) returns (k: string)
    requires v.Valid() && Loadable(v) && year in Children(v.order, "")
    ensures k in v.entries && Parse(k).Some? && year == k[..5]
  {
    k := ChildSource(v.order, "", year);
    assert k[|""|..] == k;
    MonthKeySegments(k);
  }

  /** In a loadable view, a month listed under a year directory names a
      stored key. */
  lemma ListedMonth(v: CounterView, year: string, month: string)
    requires v.Valid() && Loadable(v) && year in Children(v.order, "") && month in Children(v.order, year)
    ensures year + month in v.entries
  {
    var y := ListedYear(v, year);
    var k := ChildSource(v.order, year, month);
    MonthKeySegments(k);
    assert k[..5] == year;
    assert year + k[5..] == k;
  }

  lemma {:induction false} YearEntriesSucceed(v: CounterView, years: seq<string>, sortMonths: bool)
    requires v.Valid() && Loadable(v)
    requires forall y | y in years :: y in Children(v.order, "")
    ensures YearEntries(v, years, sortMonths).Ok?
  {
    if years != [] {
      var year := years[0];
      var k := ListedYear(v, year);
      var listed := ListIn(v, year).value;
      var months := Arrange(listed, sortMonths);
      forall m | m in months
        ensures year + m in v.entries && year + m !in v.faults.get
        ensures v.entries[year + m].Encoded? && Parse(year + m).Some?
      {
        ArrangeMembers(listed, sortMonths, m);
        ListedMonth(v, year, m);
      }
      MonthEntriesSucceed(v, year, months);
      YearEntriesSucceed(v, years[1..], sortMonths);
      YearStep(v, years, 0, sortMonths);
      assert years[0..] == years;
    }
  }

  /** The reconstruction succeeds exactly on loadable views: any failure to
      list, read, decode or parse along the way aborts it as a whole. */
  lemma HistoryOkIffLoadable(v: CounterView, sortMonths: bool)
    requires v.Valid()
    ensures HistoryWith(v, sortMonths).Ok? <==> Loadable(v)
  {
    if HistoryWith(v, sortMonths).Ok? {
      HistoryWithOk(v, sortMonths);
      forall k | k in v.entries
        ensures Parse(k).Some? && k !in v.faults.get && v.entries[k].Encoded? && k[..5] !in v.faults.list
      {
        StoredKeyLoaded(v, sortMonths, k);
        HistoryEntriesStored(v, sortMonths);
        var dated := HistoryWith(v, sortMonths).value.value.dated;
        var i :| 0 <= i < |dated| && Keys(dated)[i] == k;
        assert Recorded(v, dated[i]);
      }
    }
    if Loadable(v) {
      var listed := ListIn(v, "").value;
      forall y | y in Sort(listed)
        ensures y in Children(v.order, "")
      {
        assert y in multiset(Sort(listed));
      }
      YearEntriesSucceed(v, Sort(listed), sortMonths);
    }
  }

  /** Nothing the reconstruction visits dereferences a missing record: the
      panic `*counter` could raise at vault/counters.go:61 does not happen. */
  lemma HistoryNeverDereferencesNil(v: CounterView, sortMonths: bool)
    requires v.Valid()
    ensures HistoryWith(v, sortMonths).Err? ==> !HistoryWith(v, sortMonths).error.NilDereference?
  {
    if ListIn(v, "").Ok? {
      YearEntriesNoNil(v, Sort(ListIn(v, "").value), sortMonths);
    }
  }

  /** With the root listable, the history is absent, and not an error,
      exactly when nothing is stored. */
  lemma HistoryAbsentIffEmpty(v: CounterView, sortMonths: bool)
    requires v.Valid() && "" !in v.faults.list
    ensures HistoryWith(v, sortMonths) == Ok(None) <==> v.entries == map[]
  {
    if v.entries != map[] {
      var k :| k in v.entries;
      assert k[|""|..] == k;
      ChildOfKey(v.order, "", k);
    }
    var listed := ListIn(v, "").value;
    if listed != [] {
      var k := ChildSource(v.order, "", listed[0]);
      assert k in v.entries;
    }
  }

  // ----- order -----

  /** With its listing sorted, a year directory's block has strictly
      ascending keys, each "YYYY/MM" under that directory. */
  lemma BlockKeys(v: CounterView, year: string)
    requires IsSegment(year) && ListIn(v, year).Ok? && MonthEntries(v, year, Sort(ListIn(v, year).value)).Ok?
    ensures var kb := Keys(MonthEntries(v, year, Sort(ListIn(v, year).value)).value);
      && StrictlySorted(kb)
      && forall i | 0 <= i < |kb| :: |kb[i]| == 7 && kb[i][..5] == year
  {
    var months := Sort(ListIn(v, year).value);
    var block := MonthEntries(v, year, months).value;
    MonthEntriesAligned(v, year, months);
    var kb := Keys(block);
    forall i | 0 <= i < |kb|
      ensures kb[i] == year + months[i] && |year| == 5 && |months[i]| == 2
    {
      FormatParse(year + months[i]);
      assert months[i] in ListIn(v, year).value by {
        assert months[i] in multiset(months);
      }
      ChildShape(v.order, year, months[i]);
      FolderAndMonth(year, months[i]);
    }
    forall i, j | 0 <= i < j < |kb|
      ensures Less(kb[i], kb[j])
    {
      LessAppend(year, months[i], year, months[j]);
    }
  }

  /** Joining a block of keys under one directory to keys under directories
      that sort after it keeps the keys strictly ascending. */
  lemma KeysJoin(kb: seq<string>, kr: seq<string>, year: string, later: seq<string>)
    requires StrictlySorted(kb) && StrictlySorted(kr)
    requires forall i | 0 <= i < |kb| :: |kb[i]| == 7 && kb[i][..5] == year
    requires forall j | 0 <= j < |kr| :: |kr[j]| == 7 && kr[j][..5] in later
    requires forall y | y in later :: Less(year, y)
    ensures StrictlySorted(kb + kr)
  {
    forall i, j | 0 <= i < |kb| && 0 <= j < |kr|
      ensures Less(kb[i], kr[j])
    {
      assert kb[i] == year + kb[i][5..] && kr[j] == kr[j][..5] + kr[j][5..];
      LessAppend(year, kb[i][5..], kr[j][..5], kr[j][5..]);
    }
    var ks := kb + kr;
    forall i, j | 0 <= i < j < |ks|
      ensures Less(ks[i], ks[j])
    {
      if j < |kb| {
        assert ks[i] == kb[i] && ks[j] == kb[j];
      } else if i >= |kb| {
        assert ks[i] == kr[i - |kb|] && ks[j] == kr[j - |kb|];
      } else {
        assert ks[i] == kb[i] && ks[j] == kr[j - |kb|];
      }
    }
  }

  /** With month listings sorted, the keys of the entries ascend strictly,
      each inside one of the given year directories. */
  lemma {:induction false} YearEntriesKeys(v: CounterView, years: seq<string>)
    requires StrictlySorted(years) && forall y | y in years :: IsSegment(y)
    requires YearEntries(v, years, true).Ok?
    ensures var ks := Keys(YearEntries(v, years, true).value);
      && StrictlySorted(ks)
      && forall i | 0 <= i < |ks| :: |ks[i]| == 7 && ks[i][..5] in years
  {
    if years != [] {
      var year := years[0];
      YearEntriesSplit(v, years, true);
      var block := MonthEntries(v, year, Sort(ListIn(v, year).value)).value;
      var rest := YearEntries(v, years[1..], true).value;
      KeysAppend(block, rest);
      BlockKeys(v, year);
      YearEntriesKeys(v, years[1..]);
      var kb, kr := Keys(block), Keys(rest);
      forall y | y in years[1..]
        ensures Less(year, y)
      {
        var q :| 0 <= q < |years[1..]| && years[1..][q] == y;
        assert years[q + 1] == y;
      }
      KeysJoin(kb, kr, year, years[1..]);
      KeysInYears(kb, kr, years);
    }
  }

  /** Keys under the first directory followed by keys under the later ones
      are all under one of the directories. */
  lemma KeysInYears(kb: seq<string>, kr: seq<string>, years: seq<string>)
    requires years != []
    requires forall i | 0 <= i < |kb| :: |kb[i]| == 7 && kb[i][..5] == years[0]
    requires forall j | 0 <= j < |kr| :: |kr[j]| == 7 && kr[j][..5] in years[1..]
    ensures forall i | 0 <= i < |kb + kr| :: |(kb + kr)[i]| == 7 && (kb + kr)[i][..5] in years
  {
    var ks := kb + kr;
    forall i | 0 <= i < |ks|
      ensures |ks[i]| == 7 && ks[i][..5] in years
    {
      if i < |kb| {
        assert ks[i] == kb[i];
      } else {
        assert ks[i] == kr[i - |kb|];
      }
    }
  }

  /** Entries whose keys ascend as strings ascend in time. */
  lemma KeysChronological(dated: seq<DatedRequestCounter>)
    requires StrictlySorted(Keys(dated))
    requires forall i | 0 <= i < |dated| :: InKeyRange(dated[i].startTime)
    ensures Chronological(dated)
  {
    forall i, j | 0 <= i < j < |dated|
      ensures Before(dated[i].startTime, dated[j].startTime)
    {
      assert Keys(dated)[i] == Format(dated[i].startTime) && Keys(dated)[j] == Format(dated[j].startTime);
      FormatOrder(dated[i].startTime, dated[j].startTime);
    }
  }

  /** The history with sorted month listings is oldest first, as documented
      for `AllRequestCounters.Dated`. */
  lemma HistoryOldestFirst(v: CounterView)
    requires History(v).Ok? && History(v).value.Some?
    ensures Chronological(History(v).value.value.dated)
  {
    HistoryWithOk(v, true);
    var listed := ListIn(v, "").value;
    assert listed == Children(v.order, "");
    var years := Sort(listed);
    assert StrictlySorted(years);
    forall y | y in years
      ensures IsSegment(y)
    {
      assert y in multiset(years);
      ChildShape(v.order, "", y);
    }
    YearEntriesKeys(v, years);
    HistoryEntriesStored(v, true);
    var dated := History(v).value.value.dated;
    assert dated == YearEntries(v, years, true).value;
    KeysChronological(dated);
  }

  // ----- the history as a whole -----

  /** Two strictly ascending sequences with the same members are equal. */
  lemma {:induction false} StrictlySortedUnique(a: seq<string>, b: seq<string>)
    requires StrictlySorted(a) && StrictlySorted(b)
    requires forall x :: x in a <==> x in b
    ensures a == b
  {
    assert a != [] ==> a[0] in b;
    assert b != [] ==> b[0] in a;
    if a != [] {
      var i :| 0 <= i < |a| && a[i] == b[0];
      var j :| 0 <= j < |b| && b[j] == a[0];
      if i > 0 && j > 0 {
        LessAsymmetric(a[0], b[0]);
      }
      assert a[0] == b[0];
      forall x | x in a[1..]
        ensures x in b[1..]
      {
        var p :| 0 <= p < |a[1..]| && a[1..][p] == x;
        assert Less(a[0], a[p + 1]);
        LessIrreflexive(x);
        assert x in a && x in b;
        var q :| 0 <= q < |b| && b[q] == x;
        assert b[1..][q - 1] == x;
      }
      forall x | x in b[1..]
        ensures x in a[1..]
      {
        var q :| 0 <= q < |b[1..]| && b[1..][q] == x;
        assert Less(b[0], b[q + 1]);
        LessIrreflexive(x);
        assert x in b && x in a;
        var p :| 0 <= p < |a| && a[p] == x;
        assert a[1..][p - 1] == x;
      }
      StrictlySortedUnique(a[1..], b[1..]);
      assert a == [a[0]] + a[1..] && b == [b[0]] + b[1..];
    }
  }

  /** Entries in time order within the four-digit years have ascending keys. */
  lemma ChronologicalKeys(dated: seq<DatedRequestCounter>)
    requires Chronological(dated)
    requires forall i | 0 <= i < |dated| :: InKeyRange(dated[i].startTime)
    ensures StrictlySorted(Keys(dated))
  {
    forall i, j | 0 <= i < j < |Keys(dated)|
      ensures Less(Keys(dated)[i], Keys(dated)[j])
    {
      FormatOrder(dated[i].startTime, dated[j].startTime);
    }
  }

  /** The history of a loadable view that holds anything: one entry per
      stored month, oldest first, each carrying the stored record. */
  lemma HistoryExact(v: CounterView)
    requires v.Valid() && Loadable(v) && v.entries != map[]
    ensures History(v).Ok? && History(v).value.Some?
    ensures var dated := History(v).value.value.dated;
      && Chronological(dated)
      && (forall k :: k in v.entries <==> k in Keys(dated))
      && forall i | 0 <= i < |dated| :: Recorded(v, dated[i])
  {
    HistoryOkIffLoadable(v, true);
    HistoryAbsentIffEmpty(v, true);
    HistoryOldestFirst(v);
    HistoryEntriesStored(v, true);
    var dated := History(v).value.value.dated;
    forall k
      ensures k in v.entries <==> k in Keys(dated)
    {
      if k in v.entries {
        StoredKeyLoaded(v, true, k);
      }
      if k in Keys(dated) {
        var i :| 0 <= i < |dated| && Keys(dated)[i] == k;
        assert Recorded(v, dated[i]);
      }
    }
  }

  /** ... and it is the only such sequence: the history is fully determined
      by what is stored. */
  lemma HistoryIsTheStoredMonths(v: CounterView, dated: seq<DatedRequestCounter>)
    requires v.Valid() && Loadable(v) && v.entries != map[]
    requires Chronological(dated)
    requires forall k :: k in v.entries <==> k in Keys(dated)
    requires forall i | 0 <= i < |dated| :: Recorded(v, dated[i])
    ensures History(v) == Ok(Some(AllRequestCounters(dated)))
  {
    HistoryExact(v);
    var history := History(v).value.value.dated;
    ChronologicalKeys(dated);
    ChronologicalKeys(history);
    StrictlySortedUnique(Keys(dated), Keys(history));
    forall i | 0 <= i < |dated|
      ensures dated[i] == history[i]
    {
      assert Keys(dated)[i] == Keys(history)[i];
      FormatInjective(dated[i].startTime, history[i].startTime);
      assert Recorded(v, dated[i]) && Recorded(v, history[i]);
    }
    assert |dated| == |Keys(dated)| == |Keys(history)| == |history|;
    assert dated == history;
  }

  // ----- the month listing as written -----

  lemma {:induction false} YearEntriesSortedListings(v: CounterView, years: seq<string>)
    requires forall y | y in years :: ListIn(v, y).Ok? ==> Sorted(ListIn(v, y).value)
    ensures YearEntries(v, years, false) == YearEntries(v, years, true)
  {
    if years != [] {
      if ListIn(v, years[0]).Ok? {
        SortOfSorted(ListIn(v, years[0]).value);
      }
      YearEntriesSortedListings(v, years[1..]);
    }
  }

  /** When the backend lists every directory in sorted order, the source's
      reconstruction, which does not sort months, agrees with the sorted one. */
  lemma AsWrittenAgreesWhenSorted(v: CounterView)
    requires forall y :: ListIn(v, y).Ok? ==> Sorted(ListIn(v, y).value)
    ensures HistoryAsWritten(v) == History(v)
  {
    if ListIn(v, "").Ok? {
      YearEntriesSortedListings(v, Sort(ListIn(v, "").value));
    }
  }

  /** When the months were first written oldest first, so that a backend
      enumerating in write order lists them sorted, the source's
      reconstruction gives the sorted history. */
  lemma AsWrittenAgreesWhenWrittenInOrder(v: CounterView)
    requires Sorted(v.order)
    ensures HistoryAsWritten(v) == History(v)
  {
    forall y | ListIn(v, y).Ok?
      ensures Sorted(ListIn(v, y).value)
    {
      ChildrenSorted(v.order, y);
    }
    AsWrittenAgreesWhenSorted(v);
  }

  /** A view whose backend enumerates February 2019 before January 2019, as
      a backend that lists in write order does after those months were
      first written out of order. */
  function FebruaryBeforeJanuary(): CounterView {
    View(map["2019/02" := Encoded(RequestCounter(Some(2))), "2019/01" := Encoded(RequestCounter(Some(1)))],
         ["2019/02", "2019/01"],
         NoFaults())
  }

  lemma SegmentsOfOne(a: string, prefix: string)
    requires prefix <= a
    ensures Segments([a], prefix) == [FirstSegment(a[|prefix|..])]
  {
    var keys := [a];
    assert keys[0] == a && keys[1..] == [];
    assert Segments(keys[1..], prefix) == [];
  }

  lemma SegmentsOfTwo(a: string, b: string, prefix: string)
    requires prefix <= a && prefix <= b
    ensures Segments([a, b], prefix) == [FirstSegment(a[|prefix|..]), FirstSegment(b[|prefix|..])]
  {
    var keys := [a, b];
    assert keys[0] == a && keys[1..] == [b];
    SegmentsOfOne(b, prefix);
    assert Segments(keys, prefix) == [FirstSegment(a[|prefix|..])] + Segments([b], prefix);
  }

  lemma DedupeOfTwo(a: string, b: string)
    ensures Dedupe([a, b]) == if a == b then [a] else [a, b]
  {
    assert [a][..0] == [];
    assert Dedupe([a]) == [] + [a];
    assert [a, b][..1] == [a];
  }

  /** Two month keys of one year list as that year's directory at the root. */
  lemma RootOfTwo(a: string, b: string)
    requires Parse(a).Some? && Parse(b).Some? && a[..5] == b[..5]
    ensures Children([a, b], "") == [a[..5]]
  {
    MonthKeySegments(a);
    MonthKeySegments(b);
    assert a[|""|..] == a && b[|""|..] == b;
    SegmentsOfTwo(a, b, "");
    DedupeOfTwo(a[..5], a[..5]);
  }

  /** Two distinct month keys of one year list as their months, in the same
      order, under that year's directory. */
  lemma YearOfTwo(a: string, b: string)
    requires Parse(a).Some? && Parse(b).Some? && a[..5] == b[..5] && a != b
    ensures Children([a, b], a[..5]) == [a[5..], b[5..]]
  {
    MonthKeySegments(a);
    MonthKeySegments(b);
    assert a[..5] <= a && a[..5] <= b;
    SegmentsOfTwo(a, b, a[..5]);
    assert a == a[..5] + a[5..] && b == b[..5] + b[5..];
    DedupeOfTwo(a[5..], b[5..]);
  }

  lemma FebruaryBeforeJanuaryRoot()
    ensures ListIn(FebruaryBeforeJanuary(), "") == Ok(["2019/"])
  {
    FebruaryBeforeJanuaryKeys();
    assert "2019/02"[..5] == "2019/" && "2019/01"[..5] == "2019/";
    RootOfTwo("2019/02", "2019/01");
  }

  lemma FebruaryBeforeJanuaryYear()
    ensures ListIn(FebruaryBeforeJanuary(), "2019/") == Ok(["02", "01"])
  {
    FebruaryBeforeJanuaryKeys();
    assert "2019/02"[..5] == "2019/" && "2019/01"[..5] == "2019/";
    assert "2019/02"[5..] == "02" && "2019/01"[5..] == "01";
    YearOfTwo("2019/02", "2019/01");
  }

  lemma FebruaryBeforeJanuaryKeys()
    ensures Parse("2019/02") == Some(Period(2019, 2)) && Parse("2019/01") == Some(Period(2019, 1))
  {
    assert "2019/02"[..4] == "2019" && "2019/01"[..4] == "2019";
    assert "2019/02"[5..] == "02" && "2019/01"[5..] == "01";
    assert "2019"[..3] == "201" && "201"[..2] == "20" && "20"[..1] == "2" && "2"[..0] == "";
    assert "02"[..1] == "0" && "01"[..1] == "0" && "0"[..0] == "";
    assert Value("2019") == 2019;
    assert Value("02") == 2 && Value("01") == 1;
  }

  lemma FebruaryBeforeJanuarySorts()
    ensures Sort(["02", "01"]) == ["01", "02"] && Sort(["2019/"]) == ["2019/"]
  {
    assert Less("01", "02") by {
      assert "01"[1..] == "1" && "02"[1..] == "2";
    }
    SortOfTwo("02", "01");
    SortOfSorted(["2019/"]);
  }

  lemma FebruaryBeforeJanuarySingleMonths()
    ensures var feb := DatedRequestCounter(Period(2019, 2), RequestCounter(Some(2)));
      var jan := DatedRequestCounter(Period(2019, 1), RequestCounter(Some(1)));
      && MonthEntries(FebruaryBeforeJanuary(), "2019/", ["02"]) == Ok([feb])
      && MonthEntries(FebruaryBeforeJanuary(), "2019/", ["01"]) == Ok([jan])
  {
    var v := FebruaryBeforeJanuary();
    var feb := DatedRequestCounter(Period(2019, 2), RequestCounter(Some(2)));
    var jan := DatedRequestCounter(Period(2019, 1), RequestCounter(Some(1)));
    FebruaryBeforeJanuaryKeys();
    assert "2019/" + "02" == "2019/02" && "2019/" + "01" == "2019/01";
    assert LoadRequestCounters(v, "2019/02") == Ok(Some(RequestCounter(Some(2))));
    assert LoadRequestCounters(v, "2019/01") == Ok(Some(RequestCounter(Some(1))));
    MonthEntriesCons(v, "2019/", "01", [], jan.startTime, jan.counter);
    MonthEntriesCons(v, "2019/", "02", [], feb.startTime, feb.counter);
    assert ["01"] + [] == ["01"] && ["02"] + [] == ["02"];
    assert [jan] + [] == [jan] && [feb] + [] == [feb];
    assert MonthEntries(v, "2019/", []) == Ok([]);
  }

  lemma FebruaryBeforeJanuaryMonths()
    ensures var feb := DatedRequestCounter(Period(2019, 2), RequestCounter(Some(2)));
      var jan := DatedRequestCounter(Period(2019, 1), RequestCounter(Some(1)));
      && MonthEntries(FebruaryBeforeJanuary(), "2019/", ["02", "01"]) == Ok([feb, jan])
      && MonthEntries(FebruaryBeforeJanuary(), "2019/", ["01", "02"]) == Ok([jan, feb])
  {
    var v := FebruaryBeforeJanuary();
    var feb := DatedRequestCounter(Period(2019, 2), RequestCounter(Some(2)));
    var jan := DatedRequestCounter(Period(2019, 1), RequestCounter(Some(1)));
    FebruaryBeforeJanuaryKeys();
    FebruaryBeforeJanuarySingleMonths();
    assert "2019/" + "02" == "2019/02" && "2019/" + "01" == "2019/01";
    MonthEntriesCons(v, "2019/", "02", ["01"], feb.startTime, feb.counter);
    MonthEntriesCons(v, "2019/", "01", ["02"], jan.startTime, jan.counter);
    assert ["02"] + ["01"] == ["02", "01"] && ["01"] + ["02"] == ["01", "02"];
    assert [feb] + [jan] == [feb, jan] && [jan] + [feb] == [jan, feb];
  }

  lemma MonthEntriesCons(v: CounterView, year: string, month: string, rest: seq<string>, t: Period, c: RequestCounter)
    requires LoadRequestCounters(v, year + month) == Ok(Some(c)) && Parse(year + month) == Some(t)
    ensures MonthEntries(v, year, [month] + rest) == Prefixed([DatedRequestCounter(t, c)], MonthEntries(v, year, rest))
  {
    var months := [month] + rest;
    MonthStep(v, year, months, 0);
    assert months[0..] == months && months[1..] == rest;
  }

  /** The history of a store with one year directory. */
  lemma HistoryOfOneYear(v: CounterView, year: string, sortMonths: bool)
    requires ListIn(v, "") == Ok([year]) && ListIn(v, year).Ok?
    ensures HistoryWith(v, sortMonths)
            == match MonthEntries(v, year, Arrange(ListIn(v, year).value, sortMonths))
               case Err(e) => Err(e)
               case Ok(dated) => Ok(Some(AllRequestCounters(dated)))
  {
    assert Sort([year]) == [year] by {
      assert Sort([year][1..]) == [];
    }
    YearStep(v, [year], 0, sortMonths);
    assert [year][0..] == [year] && [year][1..] == [];
    assert YearEntries(v, [], sortMonths) == Ok([]);
    var block := MonthEntries(v, year, Arrange(ListIn(v, year).value, sortMonths));
    if block.Ok? {
      assert block.value + [] == block.value;
    }
  }

  /** Not oldest first: on that view the source's reconstruction returns
      February before January, while the sorted one returns them in order. */
  lemma AsWrittenOutOfOrder()
    ensures var v := FebruaryBeforeJanuary();
      var feb := DatedRequestCounter(Period(2019, 2), RequestCounter(Some(2)));
      var jan := DatedRequestCounter(Period(2019, 1), RequestCounter(Some(1)));
      && HistoryAsWritten(v) == Ok(Some(AllRequestCounters([feb, jan])))
      && !Chronological([feb, jan])
      && History(v) == Ok(Some(AllRequestCounters([jan, feb])))
  {
    var v := FebruaryBeforeJanuary();
    FebruaryBeforeJanuaryRoot();
    FebruaryBeforeJanuaryYear();
    FebruaryBeforeJanuarySorts();
    FebruaryBeforeJanuaryMonths();
    var feb := DatedRequestCounter(Period(2019, 2), RequestCounter(Some(2)));
    var jan := DatedRequestCounter(Period(2019, 1), RequestCounter(Some(1)));
    HistoryOfOneYear(v, "2019/", false);
    assert Arrange(["02", "01"], false) == ["02", "01"];
    assert HistoryAsWritten(v) == Ok(Some(AllRequestCounters([feb, jan])));
    HistoryOfOneYear(v, "2019/", true);
    assert Arrange(["02", "01"], true) == ["01", "02"];
    assert History(v) == Ok(Some(AllRequestCounters([jan, feb])));
    assert [feb, jan][0] == feb && [feb, jan][1] == jan && !Before(feb.startTime, jan.startTime);
  }
}
