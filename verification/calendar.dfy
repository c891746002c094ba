/** Python's proleptic Gregorian calendar (`datetime.date`/`datetime.datetime`)
  and the canonical fixed-width forms of `strftime`/`strptime` used by the core.

  `Ordinal` is `date.toordinal()` (0001-01-01 is day 1), so the `.days` of a
  difference of two dates is a difference of ordinals. A `Format` is a
  sequence of directives (`%Y`, `%m`, `%d`, `%H`, `%M`, `%S`) and literal
  characters; `Render` is `strftime` and `Parse` is `strptime` restricted to
  zero-padded fields.
 */
module Calendar {
  import opened Wrappers
  import opened Text

  datatype Date = Date(year: int, month: int, day: int)
  datatype DateTime = DateTime(date: Date, hour: int, minute: int, second: int)

  predicate IsLeap(y: int) {
    y % 4 == 0 && (y % 100 != 0 || y % 400 == 0)
  }

  function DaysInMonth(y: int, m: int): (r: int)
    requires 1 <= m <= 12
    ensures 28 <= r <= 31
  {
    if m == 2 then (if IsLeap(y) then 29 else 28)
    else if m == 4 || m == 6 || m == 9 || m == 11 then 30
    else 31
  }

  function DaysInYear(y: int): int {
    if IsLeap(y) then 366 else 365
  }

  /** The dates `datetime.date` can represent (MINYEAR = 1, MAXYEAR = 9999). */
  predicate ValidDate(d: Date) {
    1 <= d.year <= 9999 && 1 <= d.month <= 12 && 1 <= d.day <= DaysInMonth(d.year, d.month)
  }

  predicate ValidDateTime(t: DateTime) {
    ValidDate(t.date) && 0 <= t.hour < 24 && 0 <= t.minute < 60 && 0 <= t.second < 60
  }

  type PyDate = d: Date | ValidDate(d) witness Date(1, 1, 1)
  type PyDateTime = t: DateTime | ValidDateTime(t) witness DateTime(Date(1, 1, 1), 0, 0, 0)

  function DaysBeforeYear(y: int): int
    requires y >= 1
  {
    var p := y - 1;
    p * 365 + p / 4 - p / 100 + p / 400
  }

  function DaysBeforeMonth(y: int, m: int): int
    requires 1 <= m <= 12
  {
    var table := [0, 31, 59, 90, 120, 151, 181, 212, 243, 273, 304, 334];
    table[m - 1] + (if m > 2 && IsLeap(y) then 1 else 0)
  }

  /** `date.toordinal()`. */
  function Ordinal(d: PyDate): int {
    DaysBeforeYear(d.year) + DaysBeforeMonth(d.year, d.month) + d.day
  }

  lemma DaysBeforeYearStep(y: int)
    requires y >= 1
    ensures DaysBeforeYear(y + 1) == DaysBeforeYear(y) + DaysInYear(y)
  {
    var p := y - 1;
    assert y / 4 == p / 4 + (if y % 4 == 0 then 1 else 0);
    assert y / 100 == p / 100 + (if y % 100 == 0 then 1 else 0);
    assert y / 400 == p / 400 + (if y % 400 == 0 then 1 else 0);
  }

  lemma {:induction false} DaysBeforeYearGrows(a: int, b: int)
    requires 1 <= a <= b
    ensures DaysBeforeYear(a) + 365 * (b - a) <= DaysBeforeYear(b)
    decreases b - a
  {
    if a < b {
      DaysBeforeYearStep(a);
      DaysBeforeYearGrows(a + 1, b);
    }
  }

  lemma MonthStep(y: int, m: int)
    requires 1 <= m < 12
    ensures DaysBeforeMonth(y, m + 1) == DaysBeforeMonth(y, m) + DaysInMonth(y, m)
  {
  }

  lemma MonthWithinYear(y: int, m: int)
    requires 1 <= m <= 12
    ensures DaysBeforeMonth(y, m) + DaysInMonth(y, m) <= DaysInYear(y)
  {
  }

  lemma MonthsOrdered(y: int, m1: int, m2: int)
    requires 1 <= m1 < m2 <= 12
    ensures DaysBeforeMonth(y, m1) + DaysInMonth(y, m1) <= DaysBeforeMonth(y, m2)
  {
  }

  /** The calendar day after `d` (`d + timedelta(days=1)`). */
  function NextDay(d: PyDate): (r: Date)
  {
    if d.day < DaysInMonth(d.year, d.month) then Date(d.year, d.month, d.day + 1)
    else if d.month < 12 then Date(d.year, d.month + 1, 1)
    else Date(d.year + 1, 1, 1)
  }

  /** Days-from-civil: consecutive calendar days have consecutive ordinals. */
  lemma OrdinalNextDay(d: PyDate)
    requires d != Date(9999, 12, 31)
    ensures ValidDate(NextDay(d))
    ensures Ordinal(NextDay(d)) == Ordinal(d) + 1
  {
    if d.day == DaysInMonth(d.year, d.month) {
      if d.month < 12 {
        MonthStep(d.year, d.month);
      } else {
        DaysBeforeYearStep(d.year);
      }
    }
  }

  /** Chronological order of dates: by year, then month, then day. */
  predicate DateBefore(a: Date, b: Date) {
    a.year < b.year
    || (a.year == b.year && a.month < b.month)
    || (a.year == b.year && a.month == b.month && a.day < b.day)
  }

  lemma OrdinalIncreasing(a: PyDate, b: PyDate)
    requires DateBefore(a, b)
    ensures Ordinal(a) < Ordinal(b)
  {
    if a.year < b.year {
      MonthWithinYear(a.year, a.month);
      DaysBeforeYearStep(a.year);
      assert Ordinal(a) <= DaysBeforeYear(a.year + 1);
      DaysBeforeYearGrows(a.year + 1, b.year);
      assert DaysBeforeMonth(b.year, b.month) >= 0 && b.day >= 1;
    } else if a.month < b.month {
      MonthsOrdered(a.year, a.month, b.month);
    }
  }

  /** Ordinals order dates exactly as the calendar does, and identify them. */
  lemma OrdinalOrder(a: PyDate, b: PyDate)
    ensures DateBefore(a, b) <==> Ordinal(a) < Ordinal(b)
    ensures a == b <==> Ordinal(a) == Ordinal(b)
  {
    if DateBefore(a, b) {
      OrdinalIncreasing(a, b);
    } else if DateBefore(b, a) {
      OrdinalIncreasing(b, a);
    } else {
      assert a == b;
    }
  }

  /** Chronological order of date-times (what `<` on `datetime` compares). */
  predicate Before(a: DateTime, b: DateTime) {
    DateBefore(a.date, b.date)
    || (a.date == b.date && a.hour < b.hour)
    || (a.date == b.date && a.hour == b.hour && a.minute < b.minute)
    || (a.date == b.date && a.hour == b.hour && a.minute == b.minute && a.second < b.second)
  }

  /** `Before` is a strict total order. */
  lemma BeforeStrictOrder(a: DateTime, b: DateTime, c: DateTime)
    ensures !Before(a, a)
    ensures a == b || Before(a, b) || Before(b, a)
    ensures Before(a, b) && Before(b, c) ==> Before(a, c)
  {
  }

  /** Seconds since 0001-01-01T00:00:00 minus one day. */
  function Seconds(t: PyDateTime): int {
    Ordinal(t.date) * 86400 + t.hour * 3600 + t.minute * 60 + t.second
  }

  /** `Before` is elapsed-time order. */
  lemma ChronologicalOrder(a: PyDateTime, b: PyDateTime)
    ensures Before(a, b) <==> Seconds(a) < Seconds(b)
  {
    OrdinalOrder(a.date, b.date);
  }

  /** `datetime.fromtimestamp(0)` with the host clock on UTC. */
  const Epoch: PyDateTime := DateTime(Date(1970, 1, 1), 0, 0, 0)

  // ------------------------------------------------------------ formats

  datatype Token = Lit(c: char) | Year | Month | Day | Hour | Minute | Second

  type Format = seq<Token>

  /** `%Y-%m-%d` */
  const DateFormat: Format := [Year, Lit('-'), Month, Lit('-'), Day]
  /** `%Y-%m-%d %H:%M:%S` */
  const DateTimeFormat: Format := DateFormat + [Lit(' '), Hour, Lit(':'), Minute, Lit(':'), Second]
  /** `%Y%m%d_%H%M%S` */
  const StampFormat: Format := [Year, Month, Day, Lit('_'), Hour, Minute, Second]
  /** `%Y-%m-%d, %H:%M:%S` */
  const WhenFormat: Format := DateFormat + [Lit(','), Lit(' '), Hour, Lit(':'), Minute, Lit(':'), Second]

  function Width(tok: Token): nat {
    match tok
    case Lit(_) => 1
    case Year => 4
    case _ => 2
  }

  /** The six fields `strptime` fills in, before the date-time is built. */
  datatype Fields = Fields(year: int, month: int, day: int, hour: int, minute: int, second: int)

  /** `strptime`'s defaults for fields the format does not mention. */
  const Defaults := Fields(1900, 1, 1, 0, 0, 0)

  function FieldsOf(t: DateTime): Fields {
    Fields(t.date.year, t.date.month, t.date.day, t.hour, t.minute, t.second)
  }

  function ToDateTime(f: Fields): DateTime {
    DateTime(Date(f.year, f.month, f.day), f.hour, f.minute, f.second)
  }

  /** Every field fits its zero-padded width. */
  predicate Printable(f: Fields) {
    0 <= f.year < 10000 && 0 <= f.month < 100 && 0 <= f.day < 100
    && 0 <= f.hour < 100 && 0 <= f.minute < 100 && 0 <= f.second < 100
  }

  function Get(f: Fields, tok: Token): int {
    match tok
    case Lit(_) => 0
    case Year => f.year
    case Month => f.month
    case Day => f.day
    case Hour => f.hour
    case Minute => f.minute
    case Second => f.second
  }

  function Set(f: Fields, tok: Token, v: int): (r: Fields)
    ensures tok.Lit? ==> r == f
    ensures !tok.Lit? ==> Get(r, tok) == v
    ensures forall other: Token | other != tok :: Get(r, other) == Get(f, other)
  {
    match tok
    case Lit(_) => f
    case Year => f.(year := v)
    case Month => f.(month := v)
    case Day => f.(day := v)
    case Hour => f.(hour := v)
    case Minute => f.(minute := v)
    case Second => f.(second := v)
  }

  lemma PrintableField(f: Fields, tok: Token)
    requires Printable(f) && !tok.Lit?
    ensures 0 <= Get(f, tok) < Pow10(Width(tok))
  {
    assert Pow10(2) == 100;
    assert Pow10(4) == 10000;
  }

  function RenderToken(f: Fields, tok: Token): (r: string)
    requires Printable(f)
    ensures |r| == Width(tok)
  {
    if tok.Lit? then [tok.c]
    else
      PrintableField(f, tok);
      Pad(Get(f, tok), Width(tok))
  }

  /** `strftime` over a format of zero-padded directives. */
  function Render(f: Fields, fmt: Format): (r: string)
    requires Printable(f)
  {
    if fmt == [] then [] else RenderToken(f, fmt[0]) + Render(f, fmt[1..])
  }

  function TotalWidth(fmt: Format): nat {
    if fmt == [] then 0 else Width(fmt[0]) + TotalWidth(fmt[1..])
  }

  lemma {:induction false} RenderWidth(f: Fields, fmt: Format)
    requires Printable(f)
    ensures |Render(f, fmt)| == TotalWidth(fmt)
  {
    if fmt != [] { RenderWidth(f, fmt[1..]); }
  }

  /** A rendering holds only digits and the format's literal characters. */
  lemma {:induction false} RenderChars(f: Fields, fmt: Format, c: char)
    requires Printable(f)
    requires !IsDigit(c) && Lit(c) !in fmt
    ensures c !in Render(f, fmt)
  {
    if fmt != [] {
      assert fmt[0] != Lit(c);
      RenderChars(f, fmt[1..], c);
    }
  }

  /** `%Y%m%d_%H%M%S` text is 15 characters of digits and one '_'. */
  lemma StampShape(t: PyDateTime, c: char)
    requires c != '_' && !IsDigit(c)
    ensures |Print(t, StampFormat)| == 15
    ensures c !in Print(t, StampFormat)
  {
    var f := FieldsOf(t);
    RenderWidth(f, StampFormat);
    assert TotalWidth(StampFormat) == 15;
    RenderChars(f, StampFormat, c);
  }

  lemma {:induction false} RenderSplit(f: Fields, a: Format, b: Format)
    requires Printable(f)
    ensures Render(f, a + b) == Render(f, a) + Render(f, b)
  {
    if a != [] {
      assert (a + b)[0] == a[0];
      assert (a + b)[1..] == a[1..] + b;
      RenderSplit(f, a[1..], b);
    } else {
      assert a + b == b;
    }
  }

  /** Reads `s` against `fmt`, updating `acc`; `None` when the text does not
      have the shape of the format (or has text left over). */
  function Scan(s: string, fmt: Format, acc: Fields): Option<Fields>
    decreases fmt
  {
    if fmt == [] then (if s == [] then Some(acc) else None)
    else
      var tok := fmt[0];
      var w := Width(tok);
      if |s| < w then None
      else if tok.Lit? then (if s[0] == tok.c then Scan(s[1..], fmt[1..], acc) else None)
      else if !AllDigits(s[..w]) then None
      else Scan(s[w..], fmt[1..], Set(acc, tok, DigitsValue(s[..w])))
  }

  /** `datetime.strptime(s, fmt)`, canonical zero-padded forms only. */
  function Parse(s: string, fmt: Format): (r: Result<PyDateTime>)
    ensures r.Raise? ==> r.exc.kind == "ValueError"
  {
    match Scan(s, fmt, Defaults)
    case None => ValueError("time data does not match format")
    case Some(f) =>
      var t := ToDateTime(f);
      if ValidDateTime(t) then Ok(t) else ValueError("day or time is out of range")
  }

  /** `strftime` of a date-time. */
  function Print(t: PyDateTime, fmt: Format): string {
    Render(FieldsOf(t), fmt)
  }

  /** The fields a scan of `Render(f, fmt)` ends with. */
  function Apply(acc: Fields, f: Fields, fmt: Format): Fields
    decreases fmt
  {
    if fmt == [] then acc
    else Apply(Set(acc, fmt[0], Get(f, fmt[0])), f, fmt[1..])
  }

  lemma {:induction false} ScanRender(f: Fields, fmt: Format, acc: Fields)
    requires Printable(f)
    ensures Scan(Render(f, fmt), fmt, acc) == Some(Apply(acc, f, fmt))
    decreases fmt
  {
    if fmt != [] {
      var tok := fmt[0];
      var head := RenderToken(f, tok);
      var tail := Render(f, fmt[1..]);
      var s := head + tail;
      assert s[..Width(tok)] == head;
      assert s[Width(tok)..] == tail;
      if tok.Lit? {
        assert s[0] == tok.c;
        assert Set(acc, tok, Get(f, tok)) == acc;
      } else {
        PrintableField(f, tok);
        PadValue(Get(f, tok), Width(tok));
      }
      ScanRender(f, fmt[1..], Set(acc, tok, Get(f, tok)));
    }
  }

  /** A scan of a rendering takes each directive's field from the rendered
      fields and leaves the others as they were. */
  lemma {:induction false} ApplyGet(acc: Fields, f: Fields, fmt: Format, tok: Token)
    requires !tok.Lit?
    ensures Get(Apply(acc, f, fmt), tok) == if tok in fmt then Get(f, tok) else Get(acc, tok)
    decreases fmt
  {
    if fmt != [] {
      ApplyGet(Set(acc, fmt[0], Get(f, fmt[0])), f, fmt[1..], tok);
      assert tok in fmt <==> tok == fmt[0] || tok in fmt[1..];
    }
  }

  /** A format naming all six directives fixes every field. */
  lemma ApplyComplete(acc: Fields, f: Fields, fmt: Format)
    requires Year in fmt && Month in fmt && Day in fmt
    requires Hour in fmt && Minute in fmt && Second in fmt
    ensures Apply(acc, f, fmt) == f
  {
    ApplyGet(acc, f, fmt, Year);
    ApplyGet(acc, f, fmt, Month);
    ApplyGet(acc, f, fmt, Day);
    ApplyGet(acc, f, fmt, Hour);
    ApplyGet(acc, f, fmt, Minute);
    ApplyGet(acc, f, fmt, Second);
  }

  /** `%Y-%m-%d` fixes the date and leaves the clock at its defaults. */
  lemma ApplyDate(acc: Fields, f: Fields)
    ensures Apply(acc, f, DateFormat) == acc.(year := f.year, month := f.month, day := f.day)
  {
    ApplyGet(acc, f, DateFormat, Year);
    ApplyGet(acc, f, DateFormat, Month);
    ApplyGet(acc, f, DateFormat, Day);
    ApplyGet(acc, f, DateFormat, Hour);
    ApplyGet(acc, f, DateFormat, Minute);
    ApplyGet(acc, f, DateFormat, Second);
  }

  /** `strptime(strftime(t, "%Y%m%d_%H%M%S"), "%Y%m%d_%H%M%S") == t`. */
  lemma StampRoundTrip(t: PyDateTime)
    ensures Parse(Print(t, StampFormat), StampFormat) == Ok(t)
  {
    ScanRender(FieldsOf(t), StampFormat, Defaults);
    ApplyComplete(Defaults, FieldsOf(t), StampFormat);
  }

  /** The same round trip for `%Y-%m-%d %H:%M:%S`. */
  lemma DateTimeRoundTrip(t: PyDateTime)
    ensures Parse(Print(t, DateTimeFormat), DateTimeFormat) == Ok(t)
  {
    ScanRender(FieldsOf(t), DateTimeFormat, Defaults);
    ApplyComplete(Defaults, FieldsOf(t), DateTimeFormat);
  }

  /** The same round trip for the report's `%Y-%m-%d, %H:%M:%S`. */
  lemma WhenRoundTrip(t: PyDateTime)
    ensures Parse(Print(t, WhenFormat), WhenFormat) == Ok(t)
  {
    ScanRender(FieldsOf(t), WhenFormat, Defaults);
    ApplyComplete(Defaults, FieldsOf(t), WhenFormat);
  }

  /** `%Y-%m-%d` parses a printed date back to that date at midnight. */
  lemma DateRoundTrip(d: PyDate)
    ensures Parse(Print(DateTime(d, 0, 0, 0), DateFormat), DateFormat) == Ok(DateTime(d, 0, 0, 0))
  {
    var t := DateTime(d, 0, 0, 0);
    ScanRender(FieldsOf(t), DateFormat, Defaults);
    ApplyDate(Defaults, FieldsOf(t));
  }

  /** No directive occurs twice in `fmt`. */
  predicate DirectivesOnce(fmt: Format) {
    forall i, j | 0 <= i < j < |fmt| :: fmt[i] == fmt[j] ==> fmt[i].Lit?
  }

  lemma {:induction false} ScanPrintable(s: string, fmt: Format, acc: Fields, f: Fields)
    requires Printable(acc)
    requires Scan(s, fmt, acc) == Some(f)
    ensures Printable(f)
    decreases fmt
  {
    if fmt != [] {
      var tok := fmt[0];
      var w := Width(tok);
      if tok.Lit? {
        ScanPrintable(s[1..], fmt[1..], acc, f);
      } else {
        var v := DigitsValue(s[..w]);
        assert v < Pow10(w);
        assert Pow10(2) == 100 && Pow10(4) == 10000;
        ScanPrintable(s[w..], fmt[1..], Set(acc, tok, v), f);
      }
    }
  }

  /** Fields of directives no longer in the format survive the rest of a scan. */
  lemma {:induction false} ScanKeeps(s: string, fmt: Format, acc: Fields, f: Fields, tok: Token)
    requires Scan(s, fmt, acc) == Some(f)
    requires tok !in fmt
    ensures Get(f, tok) == Get(acc, tok)
    decreases fmt
  {
    if fmt != [] {
      var t0 := fmt[0];
      var w := Width(t0);
      assert t0 != tok;
      if t0.Lit? {
        ScanKeeps(s[1..], fmt[1..], acc, f, tok);
      } else {
        ScanKeeps(s[w..], fmt[1..], Set(acc, t0, DigitsValue(s[..w])), f, tok);
      }
    }
  }

  /** Whatever a scan accepts is exactly the rendering of what it read. */
  lemma {:induction false} RenderScan(s: string, fmt: Format, acc: Fields, f: Fields)
    requires DirectivesOnce(fmt)
    requires Printable(acc)
    requires Scan(s, fmt, acc) == Some(f)
    ensures Printable(f)
    ensures Render(f, fmt) == s
    decreases fmt
  {
    ScanPrintable(s, fmt, acc, f);
    if fmt != [] {
      var tok := fmt[0];
      var w := Width(tok);
      var rest := fmt[1..];
      assert DirectivesOnce(rest) by {
        forall i, j | 0 <= i < j < |rest| && rest[i] == rest[j] ensures rest[i].Lit? {
          assert fmt[i + 1] == fmt[j + 1];
        }
      }
      if tok.Lit? {
        RenderScan(s[1..], rest, acc, f);
        assert s == [s[0]] + s[1..];
      } else {
        var v := DigitsValue(s[..w]);
        var acc' := Set(acc, tok, v);
        assert v < Pow10(w);
        assert Pow10(2) == 100 && Pow10(4) == 10000;
        assert Printable(acc');
        RenderScan(s[w..], rest, acc', f);
        assert tok !in rest by {
          forall j | 0 <= j < |rest| ensures rest[j] != tok {
            assert fmt[j + 1] == rest[j];
          }
        }
        ScanKeeps(s[w..], rest, acc', f, tok);
        assert Get(f, tok) == v;
        ValuePad(s[..w]);
        assert s == s[..w] + s[w..];
      }
    }
  }

  /** The canonical text of a parsed time is unique: parse-then-print is the
      identity on every string `%Y%m%d_%H%M%S` accepts. */
  lemma StampCanonical(s: string)
    requires Parse(s, StampFormat).Ok?
    ensures Print(Parse(s, StampFormat).value, StampFormat) == s
  {
    StampDirectivesOnce();
    ParseCanonical(s, StampFormat);
  }

  /** Parse-then-print is the identity for any format whose directives occur once. */
  lemma ParseCanonical(s: string, fmt: Format)
    requires DirectivesOnce(fmt)
    requires Parse(s, fmt).Ok?
    ensures Print(Parse(s, fmt).value, fmt) == s
  {
    var f :| Scan(s, fmt, Defaults) == Some(f);
    RenderScan(s, fmt, Defaults, f);
    assert FieldsOf(ToDateTime(f)) == f;
  }

  lemma StampDirectivesOnce()
    ensures DirectivesOnce(StampFormat)
  {
  }

  // ----------------------------------------------------- text order = time order

  /** Lexicographic comparison of the fields a format prints, in its order. */
  predicate FieldsLess(a: Fields, b: Fields, fmt: Format)
    decreases fmt
  {
    if fmt == [] then false
    else if Get(a, fmt[0]) != Get(b, fmt[0]) then Get(a, fmt[0]) < Get(b, fmt[0])
    else FieldsLess(a, b, fmt[1..])
  }

  predicate FieldsEq(a: Fields, b: Fields, fmt: Format) {
    forall i | 0 <= i < |fmt| :: Get(a, fmt[i]) == Get(b, fmt[i])
  }

  lemma {:induction false} RenderEq(a: Fields, b: Fields, fmt: Format)
    requires Printable(a) && Printable(b)
    ensures Render(a, fmt) == Render(b, fmt) <==> FieldsEq(a, b, fmt)
    decreases fmt
  {
    if fmt != [] {
      var tok := fmt[0];
      var ha, hb := RenderToken(a, tok), RenderToken(b, tok);
      var ta, tb := Render(a, fmt[1..]), Render(b, fmt[1..]);
      RenderEq(a, b, fmt[1..]);
      if !tok.Lit? {
        PrintableField(a, tok);
        PrintableField(b, tok);
        PadValue(Get(a, tok), Width(tok));
        PadValue(Get(b, tok), Width(tok));
      }
      if ha + ta == hb + tb {
        assert (ha + ta)[..|ha|] == ha && (hb + tb)[..|hb|] == hb;
        assert (ha + ta)[|ha|..] == ta && (hb + tb)[|hb|..] == tb;
      }
      if FieldsEq(a, b, fmt) {
        assert FieldsEq(a, b, fmt[1..]) by {
          forall i | 0 <= i < |fmt[1..]| ensures Get(a, fmt[1..][i]) == Get(b, fmt[1..][i]) {
            assert fmt[1..][i] == fmt[i + 1];
          }
        }
        assert Get(a, tok) == Get(b, tok) by { assert fmt[0] == tok; }
      }
      if FieldsEq(a, b, fmt[1..]) && Get(a, tok) == Get(b, tok) {
        forall i | 0 <= i < |fmt| ensures Get(a, fmt[i]) == Get(b, fmt[i]) {
          if i > 0 { assert fmt[i] == fmt[1..][i - 1]; }
        }
      }
    }
  }

  /** On canonical text, string order is the order of the printed fields. */
  lemma {:induction false} RenderLex(a: Fields, b: Fields, fmt: Format)
    requires Printable(a) && Printable(b)
    ensures LexLess(Render(a, fmt), Render(b, fmt)) <==> FieldsLess(a, b, fmt)
    decreases fmt
  {
    if fmt != [] {
      var tok := fmt[0];
      var ha, hb := RenderToken(a, tok), RenderToken(b, tok);
      LexConcat(ha, Render(a, fmt[1..]), hb, Render(b, fmt[1..]));
      RenderLex(a, b, fmt[1..]);
      if tok.Lit? {
        LexIrreflexive(ha);
      } else {
        PrintableField(a, tok);
        PrintableField(b, tok);
        LexDigits(ha, hb);
        PadValue(Get(a, tok), Width(tok));
        PadValue(Get(b, tok), Width(tok));
        if ha == hb {
          assert Get(a, tok) == Get(b, tok);
        }
      }
    }
  }

  /** On `%Y%m%d_%H%M%S` text, string order is chronological order — and so
      is elapsed-time order. */
  lemma StampOrder(a: PyDateTime, b: PyDateTime)
    ensures LexLess(Print(a, StampFormat), Print(b, StampFormat)) <==> Before(a, b)
    ensures Before(a, b) <==> Seconds(a) < Seconds(b)
  {
    RenderLex(FieldsOf(a), FieldsOf(b), StampFormat);
    var fmt := StampFormat;
    assert fmt[1..][1..][1..][1..][1..][1..][1..] == [];
    ChronologicalOrder(a, b);
  }
}
