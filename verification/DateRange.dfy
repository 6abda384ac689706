/** Query dates of the mining-distribution panel: `parse_date_ms`, `resolve_to` and
    `Q::range` of rust/genesis-api/src/admin_mining_dist.rs. */
module DateRange {
  import opened Prelude
  import opened Text
  import opened CivilCalendar

  const MS_PER_DAY := 86_400_000

  predicate IsDigit(c: char) {
    '0' <= c <= '9'
  }

  predicate AllDigits(s: string) {
    forall i :: 0 <= i < |s| ==> IsDigit(s[i])
  }

  function DigitValue(c: char): nat
    requires IsDigit(c)
  {
    c as int - '0' as int
  }

  /** Decimal value of a run of digits. */
  function ParseDigits(s: string): nat
    requires AllDigits(s)
  {
    if s == [] then 0 else 10 * ParseDigits(s[..|s| - 1]) + DigitValue(s[|s| - 1])
  }

  /** Ten characters, digits but for a dash at 4 and 7. A text holding any other
      character fails here as its bytes fail in the code. */
  predicate IsYmd(s: string) {
    |s| == 10 && s[4] == '-' && s[7] == '-'
    && forall i :: 0 <= i < 10 && i != 4 && i != 7 ==> IsDigit(s[i])
  }

  function YmdParts(s: string): (int, int, int)
    requires IsYmd(s)
  {
    (ParseDigits(s[0..4]), ParseDigits(s[5..7]), ParseDigits(s[8..10]))
  }

  function ParseDateMs(raw: Option<string>): Option<int> {
    match raw
    case None => None
    case Some(text) =>
      var s := Trim(text);
      if s == [] then None
      else if AllDigits(s) then
        var v := ParseDigits(s);
        if v <= I64_MAX then Some(v) else None
      else if IsYmd(s) then
        var (y, m, d) := YmdParts(s);
        Some(DaysFromCivil(y, m, d) * MS_PER_DAY)
      else None
  }

  function UtcDayStartMs(ts: int): int {
    ts - ts % MS_PER_DAY
  }

  function UtcDayEndMs(ts: int): int {
    UtcDayStartMs(ts) + MS_PER_DAY - 1
  }

  function ResolveTo(raw: Option<string>): Option<int> {
    match ParseDateMs(raw)
    case None => None
    case Some(v) => Some(if raw.Some? && IsYmd(Trim(raw.value)) then UtcDayEndMs(v) else v)
  }

  /** The four query parameters `Q::range` reads. */
  datatype Query = Query(from: Option<string>, fromMs: Option<string>, to: Option<string>, toMs: Option<string>)

  function Or<T>(a: Option<T>, b: Option<T>): Option<T> {
    if a.Some? then a else b
  }

  function Range(q: Query): Option<(int, int)> {
    match ParseDateMs(Or(q.from, q.fromMs))
    case None => None
    case Some(from) =>
      match ResolveTo(Or(q.to, q.toMs))
      case None => None
      case Some(to) => Some((from, to))
  }

  // ----- Writing a date down -----

  function Digit(n: int): char
    requires 0 <= n <= 9
  {
    ('0' as int + n) as char
  }

  predicate FourDigitYear(d: Date) {
    Valid(d) && 0 <= d.year <= 9999
  }

  function Ymd(d: Date): string
    requires FourDigitYear(d)
  {
    [Digit(d.year / 1000), Digit(d.year / 100 % 10), Digit(d.year / 10 % 10), Digit(d.year % 10), '-',
     Digit(d.month / 10), Digit(d.month % 10), '-',
     Digit(d.day / 10), Digit(d.day % 10)]
  }

  /** The civil UTC date of an instant. */
  function CivilDateOf(ms: int): Date {
    CivilFromDay(ms / MS_PER_DAY)
  }

  lemma ParseTwo(s: string)
    requires |s| == 2 && AllDigits(s)
    ensures ParseDigits(s) == 10 * DigitValue(s[0]) + DigitValue(s[1])
  {
    var t := s[..1];
    assert ParseDigits(t[..0]) == 0;
    assert ParseDigits(t) == DigitValue(s[0]);
  }

  lemma ParseFour(s: string)
    requires |s| == 4 && AllDigits(s)
    ensures ParseDigits(s)
         == 1000 * DigitValue(s[0]) + 100 * DigitValue(s[1]) + 10 * DigitValue(s[2]) + DigitValue(s[3])
  {
    assert s[..3][..2] == s[..2];
    ParseTwo(s[..2]);
  }

  lemma DigitReadsBack(n: int)
    requires 0 <= n <= 9
    ensures IsDigit(Digit(n)) && DigitValue(Digit(n)) == n && !IsWhitespace(Digit(n))
  {
  }

  lemma FourDigits(y: int)
    requires 0 <= y <= 9999
    ensures 1000 * (y / 1000) + 100 * (y / 100 % 10) + 10 * (y / 10 % 10) + y % 10 == y
  {
    assert y / 100 == 10 * (y / 1000) + y / 100 % 10;
    assert y / 10 == 10 * (y / 100) + y / 10 % 10;
  }

  lemma YmdShape(d: Date)
    requires FourDigitYear(d)
    ensures IsYmd(Ymd(d)) && IsTrimmed(Ymd(d)) && !IsDigit(Ymd(d)[4])
  {
    DigitReadsBack(d.year / 1000);
    DigitReadsBack(d.year / 100 % 10);
    DigitReadsBack(d.year / 10 % 10);
    DigitReadsBack(d.year % 10);
    DigitReadsBack(d.month / 10);
    DigitReadsBack(d.month % 10);
    DigitReadsBack(d.day / 10);
    DigitReadsBack(d.day % 10);
  }

  lemma YmdReadsBack(d: Date)
    requires FourDigitYear(d)
    ensures IsYmd(Ymd(d)) && YmdParts(Ymd(d)) == (d.year, d.month, d.day)
  {
    var s := Ymd(d);
    YmdShape(d);
    ParseFour(s[0..4]);
    ParseTwo(s[5..7]);
    ParseTwo(s[8..10]);
    FourDigits(d.year);
  }

  lemma ReadTrimmedYmd(raw: Option<string>, s: string)
    requires raw.Some? && Trim(raw.value) == s && IsYmd(s)
    ensures var (y, m, d) := YmdParts(s);
            ParseDateMs(raw) == Some(DaysFromCivil(y, m, d) * MS_PER_DAY)
            && ResolveTo(raw) == Some(DaysFromCivil(y, m, d) * MS_PER_DAY + MS_PER_DAY - 1)
  {
    hide Trim, DaysFromCivil, ParseDigits;
    assert !IsDigit(s[4]);
  }

  /** A date in any whitespace parses to midnight UTC of that date, and as an upper
      bound to the last millisecond of that date. */
  lemma ParseYmd(d: Date, before: string, after: string)
    requires FourDigitYear(d) && Blank(before) && Blank(after)
    ensures ParseDateMs(Some(before + Ymd(d) + after)) == Some(DayCount(d) * MS_PER_DAY)
    ensures ResolveTo(Some(before + Ymd(d) + after)) == Some(DayCount(d) * MS_PER_DAY + MS_PER_DAY - 1)
  {
    hide Trim, Ymd, YmdParts, ParseDigits, DaysFromCivil, IsYmd, Blank, IsTrimmed, ParseDateMs, ResolveTo;
    YmdShape(d);
    YmdReadsBack(d);
    TrimPadded(before, Ymd(d), after);
    ReadTrimmedYmd(Some(before + Ymd(d) + after), Ymd(d));
  }

  /** Day of an instant against a day number, at both ends of the day. */
  lemma DayBounds(t: int, n: int)
    ensures n * MS_PER_DAY <= t <==> n <= t / MS_PER_DAY
    ensures t <= n * MS_PER_DAY + MS_PER_DAY - 1 <==> t / MS_PER_DAY <= n
  {
  }

  /** The range built from two dates holds exactly the instants whose civil UTC date
      lies between them, both ends included. */
  lemma RangeIsCivil(q: Query, d1: Date, d2: Date, pad: seq<string>)
    requires FourDigitYear(d1) && FourDigitYear(d2)
    requires |pad| == 4 && forall i :: 0 <= i < 4 ==> Blank(pad[i])
    requires Or(q.from, q.fromMs) == Some(pad[0] + Ymd(d1) + pad[1])
    requires Or(q.to, q.toMs) == Some(pad[2] + Ymd(d2) + pad[3])
    ensures Range(q).Some?
    ensures forall t ::
              Range(q).value.0 <= t <= Range(q).value.1
              <==> NotAfter(d1, CivilDateOf(t)) && NotAfter(CivilDateOf(t), d2)
  {
    ParseYmd(d1, pad[0], pad[1]);
    ParseYmd(d2, pad[2], pad[3]);
    forall t
      ensures Range(q).value.0 <= t <= Range(q).value.1
              <==> NotAfter(d1, CivilDateOf(t)) && NotAfter(CivilDateOf(t), d2)
    {
      var n := t / MS_PER_DAY;
      CountOfWalk(n);
      OrderPreserved(d1, CivilDateOf(t));
      OrderPreserved(CivilDateOf(t), d2);
      DayBounds(t, DayCount(d1));
      DayBounds(t, DayCount(d2));
    }
  }

  /** The decimal text of a number. */
  function Decimal(n: nat): string {
    if n < 10 then [Digit(n)] else Decimal(n / 10) + [Digit(n % 10)]
  }

  lemma {:induction false} DecimalReadsBack(n: nat)
    ensures Decimal(n) != [] && AllDigits(Decimal(n)) && ParseDigits(Decimal(n)) == n
  {
    DigitReadsBack(n % 10);
    if n < 10 {
      assert Decimal(n)[..0] == [];
    } else {
      DecimalReadsBack(n / 10);
      assert Decimal(n)[..|Decimal(n)| - 1] == Decimal(n / 10);
    }
  }

  lemma DigitsAreTrimmed(s: string)
    requires AllDigits(s)
    ensures IsTrimmed(s)
  {
  }

  lemma DigitsAreNoDate(s: string)
    requires AllDigits(s)
    ensures !IsYmd(s)
  {
  }

  /** A number of milliseconds reads as itself, on both sides of a range, up to the
      largest 64-bit integer; beyond it there is no value. */
  lemma MillisReadBack(n: nat)
    ensures ParseDateMs(Some(Decimal(n))) == if n <= I64_MAX then Some(n) else None
    ensures ResolveTo(Some(Decimal(n))) == ParseDateMs(Some(Decimal(n)))
  {
    DecimalReadsBack(n);
    DigitsAreTrimmed(Decimal(n));
    DigitsAreNoDate(Decimal(n));
    hide Trim, Decimal, ParseDigits, AllDigits, IsYmd, UtcDayEndMs, DaysFromCivil;
  }

  // ----- Which texts have a meaning, and 64-bit arithmetic -----

  /** Accepted: a number of milliseconds that fits 64 bits, or the YYYY-MM-DD shape. */
  ghost predicate Readable(raw: Option<string>) {
    raw.Some? && var s := Trim(raw.value);
    IsYmd(s) || (s != [] && AllDigits(s) && ParseDigits(s) <= I64_MAX)
  }

  lemma ReadableIsParsed(raw: Option<string>)
    ensures ParseDateMs(raw).Some? <==> Readable(raw)
    ensures ResolveTo(raw).Some? <==> Readable(raw)
  {
    if raw.Some? && IsYmd(Trim(raw.value)) {
      ReadTrimmedYmd(raw, Trim(raw.value));
    }
  }

  /** A range exists exactly when both chosen texts are readable. `from` wins over
      `fromMs` whenever it is present, even when it is unreadable. */
  lemma RangeExists(q: Query)
    ensures Range(q).Some?
       <==> Readable(if q.from.Some? then q.from else q.fromMs) && Readable(if q.to.Some? then q.to else q.toMs)
  {
    ReadableIsParsed(Or(q.from, q.fromMs));
    ReadableIsParsed(Or(q.to, q.toMs));
  }

  lemma MarchStartBound(z: int)
    requires -1 <= z <= 9999
    ensures -800_000 <= MarchStart(z) <= 3_000_000
  {
  }

  /** Every value `days_from_civil` computes on the way from year, month and day to days,
      in its order, and every value computed from the days to milliseconds. */
  function Computed(y0: int, m: int, d: int): seq<int> {
    var y := if m <= 2 then y0 - 1 else y0;
    var n := if y >= 0 then y else y - 399;
    var era := TruncDiv(n, 400);
    var yoe := y - era * 400;
    var mp := if m > 2 then m - 3 else m + 9;
    var md := TruncDiv(153 * mp + 2, 5);
    var doe := yoe * 365 + TruncDiv(yoe, 4) - TruncDiv(yoe, 100) + (md + d - 1);
    [y, n, era, era * 400, yoe,
     mp, 153 * mp, 153 * mp + 2, md, md + d, md + d - 1,
     yoe * 365, yoe * 365 + TruncDiv(yoe, 4), yoe * 365 + TruncDiv(yoe, 4) - TruncDiv(yoe, 100), doe,
     era * 146_097, era * 146_097 + doe, DaysFromCivil(y0, m, d)]
  }

  function ComputedMs(days: int): seq<int> {
    var ms := days * MS_PER_DAY;
    [ms, UtcDayStartMs(ms), UtcDayStartMs(ms) + MS_PER_DAY, UtcDayEndMs(ms)]
  }

  lemma EraRange(y: int)
    requires -1 <= y <= 9999
    ensures var era := TruncDiv(if y >= 0 then y else y - 399, 400);
            -1 <= era <= 24 && 0 <= y - era * 400 < 400
  {
    EraIsFloor(y);
  }

  lemma SmallProduct(days: int)
    requires -4_000_000 <= days <= 4_000_000
    ensures -0x2_0000_0000_0000 <= days * MS_PER_DAY <= 0x2_0000_0000_0000
  {
  }

  /** No 64-bit overflow: for every text of the YYYY-MM-DD shape, day and month checked or
      not, every value on the way and both results stay inside the 64-bit range. */
  lemma YmdFitsI64(s: string)
    requires IsYmd(s)
    ensures var (y, m, d) := YmdParts(s);
            && 0 <= y <= 9999 && 0 <= m <= 99 && 0 <= d <= 99
            && (forall i :: 0 <= i < |Computed(y, m, d)| ==> IsI64(Computed(y, m, d)[i]))
            && (forall i :: 0 <= i < |ComputedMs(DaysFromCivil(y, m, d))| ==>
                  IsI64(ComputedMs(DaysFromCivil(y, m, d))[i]))
            && IsI64(DaysFromCivil(y, m, d) * MS_PER_DAY)
            && IsI64(UtcDayEndMs(DaysFromCivil(y, m, d) * MS_PER_DAY))
  {
    ParseFour(s[0..4]);
    ParseTwo(s[5..7]);
    ParseTwo(s[8..10]);
    var (y, m, d) := YmdParts(s);
    FastIsFlat(y, m, d);
    MarchStartBound(if m <= 2 then y - 1 else y);
    assert -1_000_000 <= DaysFromCivil(y, m, d) <= 4_000_000;
    hide YmdParts, ParseDigits, Computed, ComputedMs, DaysFromCivil;
    ComputedFits(y, m, d);
    MsFit(DaysFromCivil(y, m, d));
  }

  lemma ComputedFits(y: int, m: int, d: int)
    requires 0 <= y <= 9999 && 0 <= m <= 99 && 0 <= d <= 99 && -4_000_000 <= DaysFromCivil(y, m, d) <= 4_000_000
    ensures forall i :: 0 <= i < |Computed(y, m, d)| ==> IsI64(Computed(y, m, d)[i])
  {
    EraRange(if m <= 2 then y - 1 else y);
    hide DaysFromCivil;
  }

  lemma MsFit(days: int)
    requires -4_000_000 <= days <= 4_000_000
    ensures forall i :: 0 <= i < |ComputedMs(days)| ==> IsI64(ComputedMs(days)[i])
    ensures IsI64(days * MS_PER_DAY) && IsI64(UtcDayEndMs(days * MS_PER_DAY))
  {
    SmallProduct(days);
  }

  /** Every instant a query yields fits 64 bits. */
  lemma RangeFitsI64(q: Query)
    requires Range(q).Some?
    ensures IsI64(Range(q).value.0) && IsI64(Range(q).value.1)
  {
    hide Trim, DaysFromCivil, ParseDigits;
    var from, to := Or(q.from, q.fromMs), Or(q.to, q.toMs);
    if IsYmd(Trim(from.value)) {
      YmdFitsI64(Trim(from.value));
    }
    if IsYmd(Trim(to.value)) {
      YmdFitsI64(Trim(to.value));
    }
  }
}
