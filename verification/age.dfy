/** `calculate_age`, identical in the backend, the data pipeline and the
  training pipeline: both arguments are reduced to calendar dates (a
  timestamp loses its time of day, a string is parsed with a fixed format)
  and the result is the signed number of days between them. The same
  module holds the per-row derivation of the `age` column that both
  `preprocess` methods perform, and the response's age in years.
 */
module Age {
  import opened Wrappers
  import opened Calendar
  import opened Frames

  /** The date an argument is reduced to: a timestamp's date, a string parsed
      with `fmt`, a date as it is; `None` for anything else. A string that
      does not parse is an error, not `None`. */
  function DateOf(v: Value, fmt: Format): (r: Result<Option<PyDate>>)
    ensures r.Raise? <==> v.Str? && Parse(v.s, fmt).Raise?
    ensures r.Raise? ==> r.exc.kind == "ValueError"
    ensures v.Day? ==> r == Ok(Some(v.d))
    ensures v.Stamp? ==> r == Ok(Some(v.t.date))
    ensures v.Num? || v.Null? ==> r == Ok(None)
  {
    match v
    case Stamp(t) => var d: PyDate := t.date; Ok(Some(d))
    case Str(s) =>
      var t :- Parse(s, fmt);
      var d: PyDate := t.date;
      Ok(Some(d))
    case Day(d) => Ok(Some(d))
    case _ => Ok(None)
  }

  /** `calculate_age(birth, created_at)`: `created_at` is reduced first
      (strings as `%Y-%m-%d %H:%M:%S`), then `birth` (strings as
      `%Y-%m-%d`), and the day difference is returned, negative when the
      claim predates the birth. Operands that are not dates cannot be
      subtracted. */
  function CalculateAge(birth: Value, createdAt: Value): (r: Result<int>)
    ensures DateOf(createdAt, DateTimeFormat).Raise? ==> r == Raise(DateOf(createdAt, DateTimeFormat).exc)
    ensures DateOf(createdAt, DateTimeFormat).Ok? && DateOf(birth, DateFormat).Raise? ==> r == Raise(DateOf(birth, DateFormat).exc)
    ensures r.Ok? <==> DateOf(createdAt, DateTimeFormat).Ok? && DateOf(createdAt, DateTimeFormat).value.Some?
                       && DateOf(birth, DateFormat).Ok? && DateOf(birth, DateFormat).value.Some?
    ensures r.Ok? ==> r.value == Ordinal(DateOf(createdAt, DateTimeFormat).value.value) - Ordinal(DateOf(birth, DateFormat).value.value)
  {
    DayDifference(DateOf(createdAt, DateTimeFormat), DateOf(birth, DateFormat))
  }

  /** The subtraction once both operands are reduced, the claim's first. */
  function DayDifference(created: Result<Option<PyDate>>, born: Result<Option<PyDate>>): Result<int> {
    var c :- created;
    var b :- born;
    if c.Some? && b.Some? then Ok(Ordinal(c.value) - Ordinal(b.value))
    else TypeError("unsupported operand type(s) for -")
  }

  /** Days-from-civil: a claim one calendar day later is one day older. */
  lemma AgeNextDay(birth: PyDate, created: PyDate)
    requires created != Date(9999, 12, 31)
    ensures ValidDate(NextDay(created))
    ensures CalculateAge(Value.Day(birth), Value.Day(NextDay(created))).Ok?
    ensures CalculateAge(Value.Day(birth), Value.Day(NextDay(created))).value == CalculateAge(Value.Day(birth), Value.Day(created)).value + 1
  {
    OrdinalNextDay(created);
  }

  /** The sign of the age is the chronological order of the two dates. */
  lemma AgeSign(birth: PyDate, created: PyDate)
    ensures CalculateAge(Value.Day(birth), Value.Day(created)).Ok?
    ensures CalculateAge(Value.Day(birth), Value.Day(created)).value < 0 <==> DateBefore(created, birth)
    ensures CalculateAge(Value.Day(birth), Value.Day(created)).value == 0 <==> created == birth
    ensures CalculateAge(Value.Day(birth), Value.Day(created)).value > 0 <==> DateBefore(birth, created)
  {
    OrdinalOrder(created, birth);
    OrdinalOrder(birth, created);
  }

  /** The time of day of the claim does not matter. */
  lemma AgeIgnoresTime(birth: Value, t: PyDateTime, u: PyDateTime)
    requires t.date == u.date
    ensures CalculateAge(birth, Stamp(t)) == CalculateAge(birth, Stamp(u))
    ensures CalculateAge(birth, Stamp(t)) == CalculateAge(birth, Value.Day(t.date))
  {
    SameCreatedDate(birth, Stamp(t), Stamp(u));
    SameCreatedDate(birth, Stamp(t), Value.Day(t.date));
  }

  /** The age depends on the claim only through the date it reduces to. */
  lemma SameCreatedDate(birth: Value, a: Value, b: Value)
    requires DateOf(a, DateTimeFormat) == DateOf(b, DateTimeFormat)
    ensures CalculateAge(birth, a) == CalculateAge(birth, b)
  {
  }

  /** Canonical strings give the same age as the values they print. */
  lemma AgeFromText(birth: PyDate, created: PyDateTime)
    ensures CalculateAge(Str(Print(DateTime(birth, 0, 0, 0), DateFormat)), Str(Print(created, DateTimeFormat)))
         == CalculateAge(Value.Day(birth), Stamp(created))
  {
    DateRoundTrip(birth);
    DateTimeRoundTrip(created);
  }

  /** `days // 30 // 12`: Python's floor division by a positive divisor is
      Dafny's `/`, and two floors in a row are one floor by 360. */
  function Years(days: int): (r: int)
    ensures 360 * r <= days < 360 * (r + 1)
  {
    var y := days / 30 / 12;
    FloorTwice(days);
    y
  }

  lemma FloorTwice(days: int)
    ensures days / 30 / 12 == days / 360
  {
    var q := days / 30;
    var y := q / 12;
    assert 30 * q <= days < 30 * q + 30;
    assert 12 * y <= q < 12 * y + 12;
    assert 360 * y <= days < 360 * y + 360;
  }

  /** Years are monotone in days and negative exactly for negative days. */
  lemma YearsMonotone(a: int, b: int)
    requires a <= b
    ensures Years(a) <= Years(b)
    ensures Years(a) < 0 <==> a < 0
  {
  }

  // ------------------------------------------------------------ the age column

  const Birth := "birth"
  const CreatedAt := "created_at"
  const AgeColumn := "age"

  /** `calculate_age` applied to one record. */
  function AgeAt(row: Row): Result<int> {
    CalculateAge(Cell(row, Birth), Cell(row, CreatedAt))
  }

  /** The ages of all rows, stopping at the first row that fails. */
  function Ages(rows: seq<Row>): (r: Result<seq<Value>>)
    ensures r.Ok? <==> forall i | 0 <= i < |rows| :: AgeAt(rows[i]).Ok?
    ensures r.Ok? ==> |r.value| == |rows|
    ensures r.Ok? ==> forall i | 0 <= i < |rows| :: r.value[i] == Num(AgeAt(rows[i]).value as real)
    ensures r.Raise? ==> exists i | 0 <= i < |rows| :: AgeAt(rows[i]) == Raise(r.exc)
  {
    Collect(rows, AgeValue)
  }

  /** The age of one record as a frame value. */
  function AgeValue(row: Row): (r: Result<Value>)
    ensures r.Ok? <==> AgeAt(row).Ok?
    ensures r.Ok? ==> r.value == Num(AgeAt(row).value as real)
    ensures r.Raise? ==> AgeAt(row) == Raise(r.exc)
  {
    var a :- AgeAt(row);
    Ok(Num(a as real))
  }

  /** `x["age"] = x.apply(calculate_age, axis=1)` followed by dropping
      `birth` and `created_at`: the row count is kept and the age replaces the
      two source columns. On a frame without rows `apply` never calls
      `calculate_age` and yields a frame rather than a column, which pandas
      refuses to store under one name unless it has exactly one column; the
      drop then misses a source column. */
  function WithAge(f: Frame): (r: Result<Frame>)
    ensures f.rows == [] && |f.columns| != 1 ==> r.Raise? && r.exc.kind == "ValueError"
    ensures (f.rows != [] || |f.columns| == 1) && (Birth !in f.columns || CreatedAt !in f.columns) ==> r.Raise? && r.exc.kind == "KeyError"
    ensures r.Ok? ==> f.rows != [] && Birth in f.columns && CreatedAt in f.columns && Ages(f.rows).Ok?
    ensures f.rows != [] && Birth in f.columns && CreatedAt in f.columns ==> (r.Ok? <==> Ages(f.rows).Ok?)
    ensures r.Ok? ==> |r.value.rows| == |f.rows|
    ensures r.Ok? ==> forall c :: c in r.value.columns <==> (c in f.columns || c == AgeColumn) && c != Birth && c != CreatedAt
    ensures r.Ok? ==> forall i | 0 <= i < |f.rows| :: Cell(r.value.rows[i], AgeColumn) == Ages(f.rows).value[i]
    ensures r.Ok? ==> forall i, c | 0 <= i < |f.rows| && c != AgeColumn && c != Birth && c != CreatedAt ::
      Cell(r.value.rows[i], c) == Cell(f.rows[i], c)
  {
    if f.rows == [] && |f.columns| != 1 then ValueError("Cannot set a DataFrame with multiple columns to the single column age")
    else if Birth !in f.columns then KeyError(Birth)
    else if CreatedAt !in f.columns then KeyError(CreatedAt)
    else
      var ages :- Ages(f.rows);
      var g := SetColumn(f, AgeColumn, ages);
      var h := Drop(g, Birth).value;
      Drop(h, CreatedAt)
  }
}
