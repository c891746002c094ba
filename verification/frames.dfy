/** A pandas data frame as a column list and a sequence of records.

  A `Value` is one cell; `Null` is pandas' missing value (NaN/NaT), which is
  never `==` to anything but which `unique` and `merge` treat as one key.
  Comparisons that involve a missing value are false; comparisons across
  kinds raise `TypeError`. The frame operations here are the ones the
  dashboard, BI and preprocessing code use: boolean-mask filtering,
  `unique`, `min`/`max`, `merge(how="inner")`, column arithmetic,
  selection and `drop`.
 */
module Frames {
  import opened Wrappers
  import opened Text
  import opened Calendar
  import opened Seqs

  datatype Value = Num(x: real) | Str(s: string) | Day(d: PyDate) | Stamp(t: PyDateTime) | Null

  type Row = map<string, Value>

  datatype Frame = Frame(columns: seq<string>, rows: seq<Row>)

  /** The cell of `row` in column `col`; a record without the field reads as missing. */
  function Cell(row: Row, col: string): Value {
    if col in row then row[col] else Null
  }

  const Empty := Frame([], [])

  // ------------------------------------------------------------ comparisons

  /** Elementwise `==`: a missing value is equal to nothing, not even itself. */
  predicate PyEq(a: Value, b: Value) {
    a != Null && a == b
  }

  function Kind(v: Value): nat {
    match v
    case Num(_) => 0
    case Str(_) => 1
    case Day(_) => 2
    case Stamp(_) => 3
    case Null => 4
  }

  /** Strict order between two present values of one kind. */
  predicate Lt(a: Value, b: Value) {
    match (a, b)
    case (Num(x), Num(y)) => x < y
    case (Str(s), Str(t)) => LexLess(s, t)
    case (Day(d), Day(e)) => DateBefore(d, e)
    case (Stamp(t), Stamp(u)) => Before(t, u)
    case _ => false
  }

  /** Present values of one kind are comparable. */
  predicate Comparable(a: Value, b: Value) {
    a != Null && b != Null && Kind(a) == Kind(b)
  }

  lemma LtIrreflexive(a: Value)
    ensures !Lt(a, a)
  {
    if a.Str? { LexIrreflexive(a.s); }
  }

  lemma LtAsymmetric(a: Value, b: Value)
    requires Lt(a, b)
    ensures !Lt(b, a)
  {
    if a.Str? { LexAsymmetric(a.s, b.s); }
  }

  lemma LtTransitive(a: Value, b: Value, c: Value)
    requires Lt(a, b) && Lt(b, c)
    ensures Lt(a, c)
  {
    if a.Str? { LexTransitive(a.s, b.s, c.s); }
  }

  lemma LtTotal(a: Value, b: Value)
    requires Comparable(a, b)
    ensures a == b || Lt(a, b) || Lt(b, a)
  {
    if a.Str? { LexTotal(a.s, b.s); }
  }

  /** Elementwise `a <= b`. */
  function Le(a: Value, b: Value): (r: Result<bool>)
    ensures r.Raise? <==> a != Null && b != Null && Kind(a) != Kind(b)
    ensures r == Ok(true) <==> Comparable(a, b) && !Lt(b, a)
  {
    if a == Null || b == Null then Ok(false)
    else if Kind(a) != Kind(b) then TypeError("'<=' not supported between instances")
    else Ok(!Lt(b, a))
  }

  /** Elementwise `a >= b`. */
  function Ge(a: Value, b: Value): (r: Result<bool>)
    ensures r.Raise? <==> a != Null && b != Null && Kind(a) != Kind(b)
    ensures r == Ok(true) <==> Comparable(a, b) && !Lt(a, b)
  {
    if a == Null || b == Null then Ok(false)
    else if Kind(a) != Kind(b) then TypeError("'>=' not supported between instances")
    else Ok(!Lt(a, b))
  }

  /** Python truthiness of a filter argument (NaN is truthy). */
  predicate Truthy(v: Value) {
    match v
    case Num(x) => x != 0.0
    case Str(s) => s != []
    case _ => true
  }

  // ------------------------------------------------------------ filtering

  /** The rows kept by a boolean mask, in order (`df[mask]`). */
  function Keep(rows: seq<Row>, mask: seq<bool>): (r: seq<Row>)
    requires |mask| == |rows|
    ensures |r| <= |rows|
  {
    if rows == [] then []
    else (if mask[0] then [rows[0]] else []) + Keep(rows[1..], mask[1..])
  }

  /** The mask of a row-wise test, or the first row's exception. */
  function MaskOf(rows: seq<Row>, test: Row -> Result<bool>): (r: Result<seq<bool>>)
    ensures r.Ok? ==> |r.value| == |rows|
    ensures r.Ok? ==> forall i | 0 <= i < |rows| :: test(rows[i]) == Ok(r.value[i])
    ensures r.Raise? ==> exists i | 0 <= i < |rows| :: test(rows[i]) == Raise(r.exc)
    ensures r.Ok? <==> forall i | 0 <= i < |rows| :: test(rows[i]).Ok?
  {
    if rows == [] then Ok([])
    else
      var b :- test(rows[0]);
      var rest :- MaskOf(rows[1..], test);
      assert forall i | 1 <= i < |rows| :: rows[i] == rows[1..][i - 1];
      Ok([b] + rest)
  }

  function And(a: seq<bool>, b: seq<bool>): (r: seq<bool>)
    requires |a| == |b|
    ensures |r| == |a| && forall i | 0 <= i < |a| :: r[i] == (a[i] && b[i])
  {
    seq(|a|, i requires 0 <= i < |a| => a[i] && b[i])
  }

  lemma {:induction false} KeepIsFilter(rows: seq<Row>, mask: seq<bool>, p: Row -> bool)
    requires |mask| == |rows|
    requires forall i | 0 <= i < |rows| :: mask[i] == p(rows[i])
    ensures Keep(rows, mask) == Filter(rows, p)
  {
    if rows != [] {
      assert forall i | 0 <= i < |rows[1..]| :: rows[1..][i] == rows[i + 1] && mask[1..][i] == mask[i + 1];
      KeepIsFilter(rows[1..], mask[1..], p);
    }
  }

  /** A row condition: `df[col] == v`, or the inclusive range
      `(df[col] >= lo) & (df[col] <= hi)`. */
  datatype Cond = Equals(col: string, v: Value) | Within(col: string, lo: Value, hi: Value)

  /** What the condition decides for one row. */
  function Test(row: Row, c: Cond): Result<bool> {
    match c
    case Equals(col, v) => Ok(PyEq(Cell(row, col), v))
    case Within(col, lo, hi) =>
      var a :- Ge(Cell(row, col), lo);
      var b :- Le(Cell(row, col), hi);
      Ok(a && b)
  }

  predicate Satisfies(row: Row, c: Cond) {
    Test(row, c) == Ok(true)
  }

  /** `df[<condition>]`: the column must exist, and every comparison must be
      defined. */
  function Where(f: Frame, c: Cond): (r: Result<Frame>)
    ensures r.Raise? ==> r.exc.kind == "KeyError" || r.exc.kind == "TypeError"
    ensures r.Ok? ==> r.value.columns == f.columns
  {
    if c.col !in f.columns then KeyError(c.col)
    else
      match c
      case Equals(col, v) =>
        var m := seq(|f.rows|, i requires 0 <= i < |f.rows| => PyEq(Cell(f.rows[i], col), v));
        Ok(f.(rows := Keep(f.rows, m)))
      case Within(col, lo, hi) =>
        var ge :- MaskOf(f.rows, row => Ge(Cell(row, col), lo));
        var le :- MaskOf(f.rows, row => Le(Cell(row, col), hi));
        Ok(f.(rows := Keep(f.rows, And(ge, le))))
  }

  /** `Where` succeeds exactly when the column exists and every row's test is
      defined; it then keeps, in order, exactly the satisfying rows. */
  lemma WhereSpec(f: Frame, c: Cond)
    ensures Where(f, c).Ok? <==> c.col in f.columns && forall i | 0 <= i < |f.rows| :: Test(f.rows[i], c).Ok?
    ensures Where(f, c).Ok? ==> Where(f, c).value.rows == Filter(f.rows, row => Satisfies(row, c))
  {
    if c.col in f.columns {
      match c
      case Equals(col, v) =>
        var m := seq(|f.rows|, i requires 0 <= i < |f.rows| => PyEq(Cell(f.rows[i], col), v));
        KeepIsFilter(f.rows, m, row => Satisfies(row, c));
      case Within(col, lo, hi) =>
        var ge := MaskOf(f.rows, row => Ge(Cell(row, col), lo));
        var le := MaskOf(f.rows, row => Le(Cell(row, col), hi));
        if ge.Ok? && le.Ok? {
          KeepIsFilter(f.rows, And(ge.value, le.value), row => Satisfies(row, c));
        } else if ge.Raise? {
          var i :| 0 <= i < |f.rows| && Ge(Cell(f.rows[i], col), lo).Raise?;
          assert Test(f.rows[i], c).Raise?;
        } else {
          var i :| 0 <= i < |f.rows| && Le(Cell(f.rows[i], col), hi).Raise?;
          assert Test(f.rows[i], c).Raise?;
        }
    }
  }

  /** What a successful filter keeps: an order-preserving subsequence of the
      input holding every row that satisfies the condition and no other. */
  lemma WhereKeeps(f: Frame, c: Cond)
    requires Where(f, c).Ok?
    ensures IsSubseq(Where(f, c).value.rows, f.rows)
    ensures forall x | x in Where(f, c).value.rows :: Satisfies(x, c)
    ensures forall x | x in f.rows && Satisfies(x, c) :: x in Where(f, c).value.rows
  {
    WhereSpec(f, c);
    FilterSpec(f.rows, row => Satisfies(row, c));
  }

  /** Two filters that each succeed on a frame succeed in either order, with
      the same result. */
  lemma WhereCommute(f: Frame, c1: Cond, c2: Cond)
    requires Where(f, c1).Ok? && Where(f, c2).Ok?
    ensures Where(Where(f, c1).value, c2).Ok? && Where(Where(f, c2).value, c1).Ok?
    ensures Where(Where(f, c1).value, c2) == Where(Where(f, c2).value, c1)
  {
    var p := (row: Row) => Satisfies(row, c1);
    var q := (row: Row) => Satisfies(row, c2);
    WhereSpec(f, c1);
    WhereSpec(f, c2);
    var g1 := Where(f, c1).value;
    var g2 := Where(f, c2).value;
    FilterSpec(f.rows, p);
    FilterSpec(f.rows, q);
    forall i | 0 <= i < |g1.rows| ensures Test(g1.rows[i], c2).Ok? {
      assert g1.rows[i] in f.rows;
    }
    forall i | 0 <= i < |g2.rows| ensures Test(g2.rows[i], c1).Ok? {
      assert g2.rows[i] in f.rows;
    }
    WhereSpec(g1, c2);
    WhereSpec(g2, c1);
    FilterCommute(f.rows, p, q);
  }

  // ------------------------------------------------------------ unique

  /** `df[col].unique()`: the column's values, each once, in order of first
      occurrence. */
  function Unique(f: Frame, col: string): (r: Result<seq<Value>>)
    ensures r.Raise? <==> col !in f.columns
    ensures r.Raise? ==> r.exc.kind == "KeyError"
    ensures r.Ok? ==> FirstOccurrences(r.value, ColumnValues(f.rows, col))
  {
    if col !in f.columns then KeyError(col)
    else
      DistinctFirstOccurrences(ColumnValues(f.rows, col));
      Ok(Distinct(ColumnValues(f.rows, col)))
  }

  function ColumnValues(rows: seq<Row>, col: string): (r: seq<Value>)
    ensures |r| == |rows| && forall i | 0 <= i < |rows| :: r[i] == Cell(rows[i], col)
  {
    seq(|rows|, i requires 0 <= i < |rows| => Cell(rows[i], col))
  }

  // ------------------------------------------------------------ min / max

  /** `Series.min()` (`wantMax` false) or `Series.max()`: missing values are
      skipped, `Null` when nothing is present, `TypeError` when two present
      values are of different kinds. A column of text or dates is held as
      Python objects, whose gaps pandas fills with an infinity before
      comparing, so such a column with a gap raises `TypeError` as well;
      numbers and timestamps skip their gaps. */
  function Extreme(vals: seq<Value>, wantMax: bool): (r: Result<Value>)
    ensures r.Raise? <==> MixedKinds(vals) || ObjectGap(vals)
    ensures r.Raise? ==> r.exc.kind == "TypeError"
    ensures r.Ok? && r.value == Null <==> r.Ok? && forall i | 0 <= i < |vals| :: vals[i] == Null
    ensures r.Ok? && r.value != Null ==> r.value in vals
    ensures r.Ok? && r.value != Null ==> forall i | 0 <= i < |vals| && vals[i] != Null ::
      if wantMax then !Lt(r.value, vals[i]) else !Lt(vals[i], r.value)
    ensures r.Ok? && r.value != Null ==> forall i | 0 <= i < |vals| && vals[i] != Null :: Kind(vals[i]) == Kind(r.value)
  {
    if ObjectGap(vals) then TypeError("'<' not supported between instances of 'str' and 'float'")
    else SkipNaExtreme(vals, wantMax)
  }

  /** A missing value next to text or a date. */
  predicate ObjectGap(vals: seq<Value>) {
    (exists i | 0 <= i < |vals| :: vals[i] == Null) && exists j | 0 <= j < |vals| :: vals[j].Str? || vals[j].Day?
  }

  /** The reduction with missing values skipped. */
  function SkipNaExtreme(vals: seq<Value>, wantMax: bool): (r: Result<Value>)
    ensures r.Raise? <==> MixedKinds(vals)
    ensures r.Raise? ==> r.exc.kind == "TypeError"
    ensures r.Ok? && r.value == Null <==> r.Ok? && forall i | 0 <= i < |vals| :: vals[i] == Null
    ensures r.Ok? && r.value != Null ==> r.value in vals
    ensures r.Ok? && r.value != Null ==> forall i | 0 <= i < |vals| && vals[i] != Null ::
      if wantMax then !Lt(r.value, vals[i]) else !Lt(vals[i], r.value)
    ensures r.Ok? && r.value != Null ==> forall i | 0 <= i < |vals| && vals[i] != Null :: Kind(vals[i]) == Kind(r.value)
  {
    if vals == [] then Ok(Null)
    else
      var init := vals[..|vals| - 1];
      var last := vals[|vals| - 1];
      assert forall i | 0 <= i < |init| :: init[i] == vals[i];
      var acc :- (MixedPrefix(init, vals); SkipNaExtreme(init, wantMax));
      if last == Null then Ok(acc)
      else if acc == Null then
        LtIrreflexive(last);
        Ok(last)
      else if Kind(acc) != Kind(last) then
        assert acc in init;
        TypeError("'<' not supported between instances")
      else
        var better := if wantMax then Lt(acc, last) else Lt(last, acc);
        if better then
          ExtremeReplaced(init, acc, last, wantMax);
          Ok(last)
        else
          Ok(acc)
  }

  /** Two present values of different kinds: `min` and `max` cannot compare them. */
  predicate MixedKinds(vals: seq<Value>) {
    exists i, j | 0 <= i < |vals| && 0 <= j < |vals| :: vals[i] != Null && vals[j] != Null && Kind(vals[i]) != Kind(vals[j])
  }

  lemma MixedPrefix(init: seq<Value>, vals: seq<Value>)
    requires init <= vals
    ensures MixedKinds(init) ==> MixedKinds(vals)
  {
    if MixedKinds(init) {
      var i, j :| 0 <= i < |init| && 0 <= j < |init| && init[i] != Null && init[j] != Null && Kind(init[i]) != Kind(init[j]);
      assert vals[i] == init[i] && vals[j] == init[j];
    }
  }

  /** A later value beyond the extreme of the earlier ones bounds them all. */
  lemma ExtremeReplaced(init: seq<Value>, acc: Value, last: Value, wantMax: bool)
    requires forall i | 0 <= i < |init| && init[i] != Null :: if wantMax then !Lt(acc, init[i]) else !Lt(init[i], acc)
    requires if wantMax then Lt(acc, last) else Lt(last, acc)
    ensures forall i | 0 <= i < |init| && init[i] != Null :: if wantMax then !Lt(last, init[i]) else !Lt(init[i], last)
    ensures !Lt(last, last)
  {
    forall i | 0 <= i < |init| && init[i] != Null
      ensures if wantMax then !Lt(last, init[i]) else !Lt(init[i], last)
    {
      if wantMax {
        if Lt(last, init[i]) { LtTransitive(acc, last, init[i]); }
      } else {
        if Lt(init[i], last) { LtTransitive(init[i], last, acc); }
      }
    }
    LtIrreflexive(last);
  }

  // ------------------------------------------------------------ columns

  /** `df[cols]`: the listed columns, in that order; `KeyError` for a missing one. */
  function SelectColumns(f: Frame, cols: seq<string>): (r: Result<Frame>)
    ensures r.Ok? <==> forall c | c in cols :: c in f.columns
    ensures r.Ok? ==> r.value.columns == cols && |r.value.rows| == |f.rows|
    ensures r.Ok? ==> forall i, c | 0 <= i < |f.rows| && c in cols :: Cell(r.value.rows[i], c) == Cell(f.rows[i], c)
  {
    var missing := Missing(cols, f.columns);
    if missing != [] then
      assert missing[0] in missing;
      KeyError(missing[0])
    else
      Ok(Frame(cols, seq(|f.rows|, i requires 0 <= i < |f.rows| => map c | c in cols && c in f.rows[i] :: f.rows[i][c])))
  }

  /** The entries of `cols` that `have` lacks, in order. */
  function Missing(cols: seq<string>, have: seq<string>): (r: seq<string>)
    ensures forall c :: c in r <==> c in cols && c !in have
  {
    if cols == [] then []
    else (if cols[0] in have then [] else [cols[0]]) + Missing(cols[1..], have)
  }

  function Without(cols: seq<string>, c: string): (r: seq<string>)
    ensures forall x :: x in r <==> x in cols && x != c
  {
    if cols == [] then []
    else (if cols[0] == c then [] else [cols[0]]) + Without(cols[1..], c)
  }

  /** `df.drop(col, axis=1)`: `KeyError` when the column is absent. */
  function Drop(f: Frame, col: string): (r: Result<Frame>)
    ensures r.Raise? <==> col !in f.columns
    ensures r.Ok? ==> col !in r.value.columns && |r.value.rows| == |f.rows|
    ensures r.Ok? ==> forall c :: c in r.value.columns <==> c in f.columns && c != col
    ensures r.Ok? ==> forall i, c | 0 <= i < |f.rows| && c != col :: Cell(r.value.rows[i], c) == Cell(f.rows[i], c)
  {
    if col !in f.columns then KeyError(col)
    else Ok(Frame(Without(f.columns, col), seq(|f.rows|, i requires 0 <= i < |f.rows| => f.rows[i] - {col})))
  }

  /** `df[name] = values`: overwrites a column in place or appends a new one. */
  function SetColumn(f: Frame, name: string, vals: seq<Value>): (r: Frame)
    requires |vals| == |f.rows|
    ensures |r.rows| == |f.rows| && name in r.columns
    ensures forall c :: c in r.columns <==> c in f.columns || c == name
    ensures forall i | 0 <= i < |f.rows| :: Cell(r.rows[i], name) == vals[i]
    ensures forall i, c | 0 <= i < |f.rows| && c != name :: Cell(r.rows[i], c) == Cell(f.rows[i], c)
  {
    var cols := if name in f.columns then f.columns else f.columns + [name];
    Frame(cols, seq(|f.rows|, i requires 0 <= i < |f.rows| => f.rows[i][name := vals[i]]))
  }

  /** `a - b` on numbers. A missing operand gives a missing value whatever
      the other is: pandas retries a failing object-column operation only
      where both cells are present. */
  function Sub(a: Value, b: Value): (r: Result<Value>)
    ensures a.Num? && b.Num? ==> r == Ok(Num(a.x - b.x))
    ensures a == Null || b == Null ==> r == Ok(Null)
    ensures r.Raise? <==> a != Null && b != Null && !(a.Num? && b.Num?)
    ensures r.Raise? ==> r.exc.kind == "TypeError"
  {
    match (a, b)
    case (Null, _) => Ok(Null)
    case (_, Null) => Ok(Null)
    case (Num(x), Num(y)) => Ok(Num(x - y))
    case _ => TypeError("unsupported operand type(s) for -")
  }

  /** `a / b` on numbers; a zero divisor gives a missing value, and so does
      a missing operand whatever the other is. */
  function Div(a: Value, b: Value): (r: Result<Value>)
    ensures a.Num? && b.Num? && b.x != 0.0 ==> r == Ok(Num(a.x / b.x))
    ensures a.Num? && b.Num? && b.x == 0.0 ==> r == Ok(Null)
    ensures a == Null || b == Null ==> r == Ok(Null)
    ensures r.Raise? <==> a != Null && b != Null && !(a.Num? && b.Num?)
    ensures r.Raise? ==> r.exc.kind == "TypeError"
  {
    match (a, b)
    case (Null, _) => Ok(Null)
    case (_, Null) => Ok(Null)
    case (Num(x), Num(y)) => if y == 0.0 then Ok(Null) else Ok(Num(x / y))
    case _ => TypeError("unsupported operand type(s) for /")
  }

  // ------------------------------------------------------------ astype(float)

  /** The number written `a.b` in decimal. */
  function DecimalValue(a: string, b: string): real
    requires AllDigits(a) && AllDigits(b)
  {
    DigitsValue(a) as real + DigitsValue(b) as real / Pow10(|b|) as real
  }

  /** `float(s)` on unsigned text: digits around at most one `.`, with at
      least one digit. */
  function ParseUnsigned(s: string): (r: Option<real>)
    ensures r.Some? ==> exists i | 0 <= i < |s| :: IsDigit(s[i])
    ensures r.Some? ==> forall i | 0 <= i < |s| :: IsDigit(s[i]) || s[i] == '.'
    ensures r.Some? ==> forall i, j | 0 <= i < j < |s| && s[i] == '.' :: s[j] != '.'
  {
    var k := RFind(s, '.');
    if k < 0 then
      if s != [] && AllDigits(s) then Some(DigitsValue(s) as real) else None
    else if AllDigits(s[..k]) && AllDigits(s[k + 1..]) && (k > 0 || k + 1 < |s|) then
      assert forall i | 0 <= i < k :: s[i] == s[..k][i];
      assert forall i | k < i < |s| :: s[i] == s[k + 1..][i - k - 1];
      assert IsDigit(s[0]) || IsDigit(s[k + 1]);
      Some(DecimalValue(s[..k], s[k + 1..]))
    else None
  }

  /** Python's `float(s)` on plain decimal text: an optional sign, then
      digits around at most one `.`, with at least one digit. */
  function ParseFloat(s: string): (r: Option<real>)
    ensures r.Some? ==> exists i | 0 <= i < |s| :: IsDigit(s[i])
    ensures r.Some? ==> forall i | 0 <= i < |s| :: IsDigit(s[i]) || s[i] == '.' || (i == 0 && (s[i] == '-' || s[i] == '+'))
    ensures r.Some? ==> forall i, j | 0 <= i < j < |s| && s[i] == '.' :: s[j] != '.'
  {
    if s != [] && (s[0] == '-' || s[0] == '+') then
      match ParseUnsigned(s[1..])
      case Some(v) =>
        assert forall i | 1 <= i < |s| :: s[i] == s[1..][i - 1];
        Some(if s[0] == '-' then -v else v)
      case None => None
    else ParseUnsigned(s)
  }

  /** Text that does not contain `c` has no last occurrence of it. */
  lemma RFindAbsent(s: string, c: char)
    requires c !in s
    ensures RFind(s, c) == -1
  {
    RFindAppendWithout([], s, c);
    assert [] + s == s;
  }

  /** A run of digits has no `.` in it. */
  lemma DigitsNoDot(a: string)
    requires AllDigits(a)
    ensures '.' !in a
  {
    forall i | 0 <= i < |a| ensures a[i] != '.' { assert IsDigit(a[i]); }
  }

  lemma UnsignedDecimal(a: string, b: string)
    requires AllDigits(a) && AllDigits(b) && |a| + |b| > 0
    ensures ParseUnsigned(a + "." + b) == Some(DecimalValue(a, b))
  {
    var u := a + "." + b;
    DigitsNoDot(a);
    DigitsNoDot(b);
    RFindAppendWithout(".", b, '.');
    assert RFind(".", '.') == 0;
    RFindAppendWith(a, "." + b, '.');
    assert u == a + ("." + b);
    assert u[..|a|] == a && u[|a| + 1..] == b;
  }

  lemma UnsignedInteger(a: string)
    requires AllDigits(a) && |a| > 0
    ensures ParseUnsigned(a) == Some(DigitsValue(a) as real)
  {
    DigitsNoDot(a);
    RFindAbsent(a, '.');
  }

  /** A sign in front of unsigned text negates or keeps its number. */
  lemma SignedParse(sign: string, t: string)
    requires sign == "" || sign == "-" || sign == "+"
    requires t != [] && (IsDigit(t[0]) || t[0] == '.')
    ensures ParseFloat(sign + t) == match ParseUnsigned(t)
      case Some(v) => Some(if sign == "-" then -v else v)
      case None => None
  {
    if sign == "" {
      assert sign + t == t;
    } else {
      assert (sign + t)[1..] == t;
    }
  }

  /** Every signed decimal `±a.b` reads as the number it writes. */
  lemma ParseFloatDecimal(sign: string, a: string, b: string)
    requires sign == "" || sign == "-" || sign == "+"
    requires AllDigits(a) && AllDigits(b) && |a| + |b| > 0
    ensures ParseFloat(sign + a + "." + b) == Some(if sign == "-" then -DecimalValue(a, b) else DecimalValue(a, b))
  {
    var u := a + "." + b;
    UnsignedDecimal(a, b);
    assert IsDigit(u[0]) || u[0] == '.' by { if |a| > 0 { assert u[0] == a[0]; } }
    SignedParse(sign, u);
    assert sign + u == sign + a + "." + b;
  }

  /** Every signed integer `±a` reads as the number it writes. */
  lemma ParseFloatInteger(sign: string, a: string)
    requires sign == "" || sign == "-" || sign == "+"
    requires AllDigits(a) && |a| > 0
    ensures ParseFloat(sign + a) == Some(if sign == "-" then -(DigitsValue(a) as real) else DigitsValue(a) as real)
  {
    var v := DigitsValue(a) as real;
    UnsignedInteger(a);
    SignedValue(sign, a, v);
  }

  /** `SignedParse` once the unsigned text is known to read as `v`. */
  lemma SignedValue(sign: string, t: string, v: real)
    requires sign == "" || sign == "-" || sign == "+"
    requires t != [] && (IsDigit(t[0]) || t[0] == '.')
    requires ParseUnsigned(t) == Some(v)
    ensures ParseFloat(sign + t) == Some(if sign == "-" then -v else v)
  {
    SignedParse(sign, t);
  }

  /** `float(v)` as `astype(float)` applies it to one cell: numbers and
      missing cells pass, text must spell a number (`ValueError`
      otherwise), and a date or timestamp raises `TypeError`. */
  function AsFloat(v: Value): (r: Result<Value>)
    ensures v.Num? || v.Null? ==> r == Ok(v)
    ensures v.Str? ==> (r.Ok? <==> ParseFloat(v.s).Some?)
    ensures v.Str? && r.Ok? ==> r.value == Num(ParseFloat(v.s).value)
    ensures v.Day? || v.Stamp? ==> Raises(r, "TypeError")
    ensures v.Str? && r.Raise? ==> r.exc.kind == "ValueError"
  {
    match v
    case Str(s) =>
      (match ParseFloat(s)
       case Some(x) => Ok(Num(x))
       case None => ValueError("could not convert string to float: '" + s + "'"))
    case Day(_) => TypeError("float() argument must be a string or a real number, not 'datetime.date'")
    case Stamp(_) => TypeError("Cannot cast DatetimeArray to dtype float64")
    case _ => Ok(v)
  }

  /** `astype(float)` on a run of cells: the first cell that cannot be
      converted raises. */
  function CastValues(vals: seq<Value>): (r: Result<seq<Value>>)
    ensures r.Ok? <==> forall i | 0 <= i < |vals| :: AsFloat(vals[i]).Ok?
    ensures r.Ok? ==> |r.value| == |vals| && forall i | 0 <= i < |vals| :: AsFloat(vals[i]) == Ok(r.value[i])
    ensures r.Raise? ==> exists i | 0 <= i < |vals| ::
      AsFloat(vals[i]) == Raise(r.exc) && forall j | 0 <= j < i :: AsFloat(vals[j]).Ok?
  {
    if vals == [] then Ok([])
    else
      var v :- AsFloat(vals[0]);
      assert forall i | 1 <= i < |vals| :: vals[i] == vals[1..][i - 1];
      var rest :- CastValues(vals[1..]);
      Ok([v] + rest)
  }

  /** `df[col].astype(float)` written back to the column: `KeyError` without
      the column, otherwise the first cell that cannot be converted raises,
      and every other column is kept. */
  function CastColumn(f: Frame, col: string): (r: Result<Frame>)
    ensures col !in f.columns ==> Raises(r, "KeyError")
    ensures col in f.columns ==> (r.Ok? <==> forall i | 0 <= i < |f.rows| :: AsFloat(Cell(f.rows[i], col)).Ok?)
    ensures r.Ok? ==> r.value.columns == f.columns && |r.value.rows| == |f.rows|
    ensures r.Ok? ==> forall i | 0 <= i < |f.rows| :: AsFloat(Cell(f.rows[i], col)) == Ok(Cell(r.value.rows[i], col))
    ensures r.Ok? ==> forall i, c | 0 <= i < |f.rows| && c != col :: Cell(r.value.rows[i], c) == Cell(f.rows[i], c)
    ensures r.Raise? && col in f.columns ==> exists i | 0 <= i < |f.rows| ::
      AsFloat(Cell(f.rows[i], col)) == Raise(r.exc) && forall j | 0 <= j < i :: AsFloat(Cell(f.rows[j], col)).Ok?
  {
    if col !in f.columns then KeyError(col)
    else
      var vals :- CastValues(ColumnValues(f.rows, col));
      Ok(SetColumn(f, col, vals))
  }

  /** Applies a cell operation to two columns row by row. */
  function ZipColumns(rows: seq<Row>, a: string, b: string, op: (Value, Value) -> Result<Value>): (r: Result<seq<Value>>)
    ensures r.Ok? ==> |r.value| == |rows|
    ensures r.Ok? ==> forall i | 0 <= i < |rows| :: op(Cell(rows[i], a), Cell(rows[i], b)) == Ok(r.value[i])
  {
    if rows == [] then Ok([])
    else
      var v :- op(Cell(rows[0], a), Cell(rows[0], b));
      var rest :- ZipColumns(rows[1..], a, b, op);
      assert forall i | 1 <= i < |rows| :: rows[i] == rows[1..][i - 1];
      Ok([v] + rest)
  }

  /** `df[out] = df[a] <op> df[b]`. */
  function Derive(f: Frame, out: string, a: string, b: string, op: (Value, Value) -> Result<Value>): (r: Result<Frame>)
    ensures r.Ok? ==> a in f.columns && b in f.columns
    ensures r.Ok? ==> |r.value.rows| == |f.rows| && out in r.value.columns
    ensures r.Ok? ==> forall i | 0 <= i < |f.rows| :: op(Cell(f.rows[i], a), Cell(f.rows[i], b)) == Ok(Cell(r.value.rows[i], out))
    ensures r.Ok? ==> forall i, c | 0 <= i < |f.rows| && c != out :: Cell(r.value.rows[i], c) == Cell(f.rows[i], c)
  {
    if a !in f.columns then KeyError(a)
    else if b !in f.columns then KeyError(b)
    else
      var vals :- ZipColumns(f.rows, a, b, op);
      Ok(SetColumn(f, out, vals))
  }

  // ------------------------------------------------------------ inner merge

  /** Two records agree on every key column (missing keys match each other). */
  predicate KeysMatch(l: Row, r: Row, on: seq<string>) {
    forall k | k in on :: Cell(l, k) == Cell(r, k)
  }

  /** The matching (left, right) record pairs in left-major, then right order. */
  function Pairs(ls: seq<Row>, rs: seq<Row>, on: seq<string>): (r: seq<(Row, Row)>)
  {
    if ls == [] then []
    else
      var mine := Filter(rs, x => KeysMatch(ls[0], x, on));
      seq(|mine|, j requires 0 <= j < |mine| => (ls[0], mine[j])) + Pairs(ls[1..], rs, on)
  }

  /** Every pair is a match, and every match is a pair. */
  lemma {:induction false} PairsSpec(ls: seq<Row>, rs: seq<Row>, on: seq<string>)
    ensures forall p | p in Pairs(ls, rs, on) :: p.0 in ls && p.1 in rs && KeysMatch(p.0, p.1, on)
    ensures forall l, r | l in ls && r in rs && KeysMatch(l, r, on) :: (l, r) in Pairs(ls, rs, on)
  {
    if ls != [] {
      PairsSpec(ls[1..], rs, on);
      var test := (x: Row) => KeysMatch(ls[0], x, on);
      var mine := Filter(rs, test);
      FilterSpec(rs, test);
      var head := seq(|mine|, j requires 0 <= j < |mine| => (ls[0], mine[j]));
      assert Pairs(ls, rs, on) == head + Pairs(ls[1..], rs, on);
      forall p | p in head ensures p.0 in ls && p.1 in rs && KeysMatch(p.0, p.1, on) {
        var j :| 0 <= j < |head| && head[j] == p;
        assert mine[j] in mine;
      }
      forall l, r | l in ls && r in rs && KeysMatch(l, r, on) ensures (l, r) in Pairs(ls, rs, on) {
        if l == ls[0] {
          assert r in mine;
          var j :| 0 <= j < |mine| && mine[j] == r;
          assert head[j] == (l, r);
        } else {
          assert l in ls[1..];
        }
      }
    }
  }

  /** The output name of a left column: keys keep theirs, clashes get `_x`. */
  function LeftName(c: string, rcols: seq<string>, on: seq<string>): string {
    if c !in on && c in rcols then c + "_x" else c
  }

  /** The output name of a right non-key column: clashes get `_y`. */
  function RightName(c: string, lcols: seq<string>): string {
    if c in lcols then c + "_y" else c
  }

  function RightColumns(rcols: seq<string>, on: seq<string>): (r: seq<string>)
    ensures forall c :: c in r <==> c in rcols && c !in on
  {
    if rcols == [] then []
    else (if rcols[0] in on then [] else [rcols[0]]) + RightColumns(rcols[1..], on)
  }

  function MergedColumns(lcols: seq<string>, rcols: seq<string>, on: seq<string>): seq<string> {
    seq(|lcols|, i requires 0 <= i < |lcols| => LeftName(lcols[i], rcols, on))
    + (var rc := RightColumns(rcols, on); seq(|rc|, i requires 0 <= i < |rc| => RightName(rc[i], lcols)))
  }

  /** Writes the named cells of `src` into `acc` under their output names. */
  function Put(acc: Row, src: Row, cols: seq<string>, rename: string -> string): Row
    decreases cols
  {
    if cols == [] then acc
    else Put(acc[rename(cols[0]) := Cell(src, cols[0])], src, cols[1..], rename)
  }

  function Combine(l: Row, r: Row, lcols: seq<string>, rcols: seq<string>, on: seq<string>): Row {
    var left := Put(map[], l, lcols, c => LeftName(c, rcols, on));
    Put(left, r, RightColumns(rcols, on), c => RightName(c, lcols))
  }

  /** `pd.merge(left, right, on=on, how="inner")`: one output record per
      matching pair, in the order of the left keys. */
  function InnerMerge(left: Frame, right: Frame, on: seq<string>): (r: Result<Frame>)
    ensures r.Raise? <==> exists k | k in on :: k !in left.columns || k !in right.columns
  {
    var missing := Missing(on, left.columns) + Missing(on, right.columns);
    if missing != [] then
      assert missing[0] in missing;
      KeyError(missing[0])
    else
      var ps := Pairs(left.rows, right.rows, on);
      Ok(Frame(MergedColumns(left.columns, right.columns, on),
               seq(|ps|, i requires 0 <= i < |ps| => Combine(ps[i].0, ps[i].1, left.columns, right.columns, on))))
  }

  /** The merge's records are exactly the combinations of matching pairs; a
      left record without a match contributes nothing. */
  lemma InnerMergeSpec(left: Frame, right: Frame, on: seq<string>)
    requires InnerMerge(left, right, on).Ok?
    ensures forall o | o in InnerMerge(left, right, on).value.rows ::
      exists l, r | l in left.rows && r in right.rows :: KeysMatch(l, r, on) && o == Combine(l, r, left.columns, right.columns, on)
    ensures forall l, r | l in left.rows && r in right.rows && KeysMatch(l, r, on) ::
      Combine(l, r, left.columns, right.columns, on) in InnerMerge(left, right, on).value.rows
  {
    var ps := Pairs(left.rows, right.rows, on);
    PairsSpec(left.rows, right.rows, on);
    var rows := InnerMerge(left, right, on).value.rows;
    forall o | o in rows
      ensures exists l, r | l in left.rows && r in right.rows :: KeysMatch(l, r, on) && o == Combine(l, r, left.columns, right.columns, on)
    {
      var i :| 0 <= i < |rows| && rows[i] == o;
      assert ps[i] in ps;
    }
    forall l, r | l in left.rows && r in right.rows && KeysMatch(l, r, on)
      ensures Combine(l, r, left.columns, right.columns, on) in rows
    {
      var i :| 0 <= i < |ps| && ps[i] == (l, r);
      assert rows[i] == Combine(l, r, left.columns, right.columns, on);
    }
  }

  /** A left record that no right record matches is dropped. */
  lemma {:induction false} PairsUnmatched(ls: seq<Row>, rs: seq<Row>, on: seq<string>, l: Row)
    requires forall r | r in rs :: !KeysMatch(l, r, on)
    ensures forall p | p in Pairs(ls, rs, on) :: p.0 != l
  {
    PairsSpec(ls, rs, on);
  }
}
