/** The storage key of a counting period: Go's `now.Format("2006/01")` and its
    inverse `time.Parse("2006/01", key)` (vault/counters.go:13, 56, 69, 108).
    A `time.Time` enters the counter code only through these two calls, so a
    moment is modelled by its calendar month. */
module PeriodKey {
  import opened Wrappers
  import opened Strings

  type MonthNumber = m: int | 1 <= m <= 12 witness 1

  /** A moment truncated to its calendar month, as `time.Time` in layout "2006/01". */
  datatype Period = Period(year: int, month: MonthNumber)

  /** Chronological order of months. */
  predicate Before(p: Period, q: Period) {
    p.year < q.year || (p.year == q.year && p.month < q.month)
  }

  /** The years whose four-digit key `time.Parse` can read back. */
  predicate InKeyRange(p: Period) {
    0 <= p.year <= 9999
  }

  predicate IsDigit(c: char) {
    '0' <= c <= '9'
  }

  predicate AllDigits(s: string) {
    forall i | 0 <= i < |s| :: IsDigit(s[i])
  }

  function DigitChar(d: nat): (c: char)
    requires d < 10
    ensures IsDigit(c)
  {
    ('0' as int + d) as char
  }

  /** The number that a string of ASCII digits spells in decimal. */
  function Value(s: string): nat
    requires AllDigits(s)
  {
    if s == [] then 0 else Value(s[..|s| - 1]) * 10 + (s[|s| - 1] as int - '0' as int)
  }

  function Pow10(k: nat): nat {
    if k == 0 then 1 else 10 * Pow10(k - 1)
  }

  /** The `width` lowest decimal digits of `n`, zero-padded on the left. */
  function Padded(n: nat, width: nat): (r: string)
    ensures |r| == width && AllDigits(r)
  {
    if width == 0 then [] else Padded(n / 10, width - 1) + [DigitChar(n % 10)]
  }

  /** All decimal digits of `n`, without leading zeros. */
  function Decimal(n: nat): (r: string)
    ensures |r| >= 1 && AllDigits(r)
  {
    if n < 10 then [DigitChar(n)] else Decimal(n / 10) + [DigitChar(n % 10)]
  }

  /** The digits Go writes for the magnitude of a year under "2006": at least
      four, zero-padded. */
  function YearDigits(u: nat): string {
    if u < 10000 then Padded(u, 4) else Decimal(u)
  }

  /** Layout element "2006": a minus sign for a negative year, then its digits. */
  function YearText(y: int): string {
    if y < 0 then "-" + YearDigits(-y) else YearDigits(y)
  }

  /** `t.Format("2006/01")`: a minus sign for a negative year, at least four
      year digits, a slash, and the month in two digits; a year of 0..9999
      takes exactly four digits. */
  function Format(p: Period): (key: string)
    ensures |key| >= 7 && key[|key| - 3] == '/'
    ensures key[0] == '-' <==> p.year < 0
    ensures AllDigits(key[|key| - 2..]) && Value(key[|key| - 2..]) == p.month
    ensures InKeyRange(p) ==> |key| == 7 && AllDigits(key[..4]) && Value(key[..4]) == p.year
  {
    YearDigitsValue(if p.year < 0 then -p.year else p.year);
    assert Pow10(4) == 10000 && Pow10(2) == 100;
    ValuePadded(p.month, 2);
    assert InKeyRange(p) ==> (YearText(p.year) + "/" + Padded(p.month, 2))[..4] == Padded(p.year, 4)
                             && Value(Padded(p.year, 4)) == p.year by {
      if InKeyRange(p) { ValuePadded(p.year, 4); }
    }
    YearText(p.year) + "/" + Padded(p.month, 2)
  }

  /** `time.Parse("2006/01", s)`: exactly four digits of year, a slash, and two
      digits of a month between 01 and 12, with nothing left over; the result
      is the first instant of that month. */
  function Parse(s: string): (r: Option<Period>)
    ensures r.Some? ==> InKeyRange(r.value)
    ensures forall p | InKeyRange(p) && Format(p) == s :: r == Some(p)
  {
    assert |s| == 7 && AllDigits(s[..4]) ==> Value(s[..4]) < 10000 by {
      if |s| == 7 && AllDigits(s[..4]) { ValueBound(s[..4]); assert Pow10(4) == 10000; }
    }
    if |s| == 7 && AllDigits(s[..4]) && s[4] == '/' && AllDigits(s[5..]) && 1 <= Value(s[5..]) <= 12
    then Some(Period(Value(s[..4]), Value(s[5..])))
    else None
  }

  // ----- decimal digits -----

  lemma ValueSnoc(t: string, c: char)
    requires AllDigits(t) && IsDigit(c)
    ensures AllDigits(t + [c]) && Value(t + [c]) == Value(t) * 10 + (c as int - '0' as int)
  {
    assert (t + [c])[..|t|] == t;
  }

  lemma {:induction false} ValuePadded(n: nat, width: nat)
    requires n < Pow10(width)
    ensures Value(Padded(n, width)) == n
  {
    if width > 0 {
      ValuePadded(n / 10, width - 1);
      ValueSnoc(Padded(n / 10, width - 1), DigitChar(n % 10));
    }
  }

  lemma {:induction false} ValueBound(s: string)
    requires AllDigits(s)
    ensures Value(s) < Pow10(|s|)
  {
    if s != [] {
      ValueBound(s[..|s| - 1]);
    }
  }

  lemma {:induction false} PaddedValue(s: string)
    requires AllDigits(s)
    ensures Padded(Value(s), |s|) == s
  {
    if s != [] {
      var t := s[..|s| - 1];
      PaddedValue(t);
      assert s == t + [s[|s| - 1]];
    }
  }

  lemma {:induction false} ValueDecimal(n: nat)
    ensures Value(Decimal(n)) == n
  {
    if n >= 10 {
      ValueDecimal(n / 10);
      ValueSnoc(Decimal(n / 10), DigitChar(n % 10));
    }
  }

  lemma {:induction false} DecimalLength(n: nat, k: nat)
    requires n >= Pow10(k)
    ensures |Decimal(n)| > k
  {
    if k > 0 {
      DecimalLength(n / 10, k - 1);
    }
  }

  lemma YearDigitsValue(u: nat)
    ensures AllDigits(YearDigits(u)) && Value(YearDigits(u)) == u
    ensures |YearDigits(u)| >= 4 && (|YearDigits(u)| == 4 <==> u < 10000)
  {
    if u < 10000 {
      assert Pow10(4) == 10000;
      ValuePadded(u, 4);
    } else {
      ValueDecimal(u);
      assert Pow10(4) == 10000;
      DecimalLength(u, 4);
    }
  }

  /** Between two digit strings of one length, Go's string order is numeric order. */
  lemma {:induction false} LessDigits(a: string, b: string)
    requires |a| == |b| && AllDigits(a) && AllDigits(b)
    ensures Less(a, b) <==> Value(a) < Value(b)
    ensures a == b <==> Value(a) == Value(b)
  {
    if a != [] {
      var a', b' := a[..|a| - 1], b[..|b| - 1];
      var x, y := a[|a| - 1], b[|b| - 1];
      assert a == a' + [x] && b == b' + [y];
      LessDigits(a', b');
      LessAppend(a', [x], b', [y]);
      ValueSnoc(a', x);
      ValueSnoc(b', y);
      if Less(b', a') {
        LessAsymmetric(b', a');
      }
    }
  }

  // ----- the key codec -----

  /** Parsing a formatted key gives back the month exactly when the year has
      four digits; any other year makes `time.Parse` fail. */
  lemma ParseFormat(p: Period)
    ensures Parse(Format(p)) == if InKeyRange(p) then Some(p) else None
  {
    if !InKeyRange(p) {
      YearDigitsValue(if p.year < 0 then -p.year else p.year);
      assert |Format(p)| > 7;
    }
  }

  /** Every key that parses is the formatted form of the month it parses to. */
  lemma FormatParse(s: string)
    requires Parse(s).Some?
    ensures InKeyRange(Parse(s).value) && Format(Parse(s).value) == s
  {
    var p := Parse(s).value;
    ValueBound(s[..4]);
    assert Pow10(4) == 10000;
    PaddedValue(s[..4]);
    PaddedValue(s[5..]);
    assert s == s[..4] + "/" + s[5..];
  }

  lemma YearTextInjective(a: int, b: int)
    requires YearText(a) == YearText(b)
    ensures a == b
  {
    var ua := if a < 0 then -a else a;
    var ub := if b < 0 then -b else b;
    YearDigitsValue(ua);
    YearDigitsValue(ub);
    assert (a < 0) == (YearText(a)[0] == '-');
    assert (b < 0) == (YearText(b)[0] == '-');
    if a < 0 {
      assert YearDigits(ua) == YearText(a)[1..];
      assert YearDigits(ub) == YearText(b)[1..];
    }
  }

  /** Distinct months never share a key. */
  lemma FormatInjective(p: Period, q: Period)
    requires Format(p) == Format(q)
    ensures p == q
  {
    var s := Format(p);
    var yp, yq := YearText(p.year), YearText(q.year);
    assert s[..|s| - 3] == yp && s[|s| - 2..] == Padded(p.month, 2);
    assert Format(q)[..|s| - 3] == yq && Format(q)[|s| - 2..] == Padded(q.month, 2);
    YearTextInjective(p.year, q.year);
    assert Pow10(2) == 100;
    ValuePadded(p.month, 2);
    ValuePadded(q.month, 2);
  }

  /** Two keys made of a four-digit year and a two-digit month compare as
      strings as their numbers compare, year first. */
  lemma KeyPartsOrder(yp: string, mp: string, yq: string, mq: string)
    requires |yp| == |yq| == 4 && |mp| == |mq| == 2
    requires AllDigits(yp) && AllDigits(yq) && AllDigits(mp) && AllDigits(mq)
    ensures Less(yp + ("/" + mp), yq + ("/" + mq))
            <==> Value(yp) < Value(yq) || (Value(yp) == Value(yq) && Value(mp) < Value(mq))
  {
    LessAppend(yp, "/" + mp, yq, "/" + mq);
    LessAppend("/", mp, "/", mq);
    LessIrreflexive("/");
    LessDigits(yp, yq);
    LessDigits(mp, mq);
  }

  /** The key of a month with a four-digit year is that year, a slash and the month. */
  lemma KeyOfFourDigitYear(p: Period)
    requires InKeyRange(p)
    ensures Format(p) == Padded(p.year, 4) + ("/" + Padded(p.month, 2))
  {
    assert Pow10(4) == 10000;
  }

  /** Keys sort as strings exactly as their months sort in time (four-digit years). */
  lemma FormatOrder(p: Period, q: Period)
    requires InKeyRange(p) && InKeyRange(q)
    ensures Less(Format(p), Format(q)) <==> Before(p, q)
  {
    assert Pow10(4) == 10000 && Pow10(2) == 100;
    var yp, yq := Padded(p.year, 4), Padded(q.year, 4);
    var mp, mq := Padded(p.month, 2), Padded(q.month, 2);
    ValuePadded(p.year, 4);
    ValuePadded(q.year, 4);
    ValuePadded(p.month, 2);
    ValuePadded(q.month, 2);
    KeyOfFourDigitYear(p);
    KeyOfFourDigitYear(q);
    KeyPartsOrder(yp, mp, yq, mq);
  }
}
