/** The BI app's data layer: its container of claim and prediction frames,
  the `age` column it derives while loading, and the repositories that list
  breeds, genders and neuter states and filter claims and predictions.

  The CSV files are a parameter mapping each path to its parsed frame.
 */
module BiModel {
  import opened Wrappers
  import opened Calendar
  import opened Seqs
  import opened Frames
  import opened DashboardSchema
  import Age

  datatype Container = Container(claims: Option<Frame>, predictions: Option<Frame>, records: Option<Frame>)

  const Empty := Container(None, None, None)

  // ------------------------------------------------------------ loading

  /** `pd.to_datetime` of one cell: a timestamp as it is, a date at
      midnight, a string as `%Y-%m-%d %H:%M:%S` or else `%Y-%m-%d`, and a
      missing value as `NaT` (`None`). */
  function ToTimestamp(v: Value): (r: Result<Option<PyDateTime>>)
    ensures v.Stamp? ==> r == Ok(Some(v.t))
    ensures v.Day? ==> r.Ok? && r.value.Some? && r.value.value == DateTime(v.d, 0, 0, 0)
    ensures v.Null? ==> r == Ok(None)
    ensures v.Str? && Parse(v.s, DateTimeFormat).Ok? ==> r == Ok(Some(Parse(v.s, DateTimeFormat).value))
    ensures r.Raise? <==> v.Num? || (v.Str? && Parse(v.s, DateTimeFormat).Raise? && Parse(v.s, DateFormat).Raise?)
  {
    match v
    case Stamp(t) => Ok(Some(t))
    case Day(d) =>
      var t: PyDateTime := DateTime(d, 0, 0, 0);
      Ok(Some(t))
    case Null => Ok(None)
    case Str(s) =>
      var full := Parse(s, DateTimeFormat);
      if full.Ok? then Ok(Some(full.value))
      else
        var day := Parse(s, DateFormat);
        if day.Ok? then Ok(Some(day.value)) else ValueError("Unknown datetime string format")
    case Num(_) => TypeError("cannot convert the input to a datetime")
  }

  /** `(created_at - birth).dt.days`: whole days, rounded down, between the
      two instants; missing when either is missing. */
  function AgeDays(birth: Value, createdAt: Value): (r: Result<Value>)
    ensures r.Ok? <==> ToTimestamp(createdAt).Ok? && ToTimestamp(birth).Ok?
    ensures r.Ok? && r.value != Null ==>
      r.value.Num? && ToTimestamp(createdAt).value.Some? && ToTimestamp(birth).value.Some?
    ensures r.Ok? && r.value.Num? ==>
      var d := Seconds(ToTimestamp(createdAt).value.value) - Seconds(ToTimestamp(birth).value.value);
      86400.0 * r.value.x <= d as real < 86400.0 * (r.value.x + 1.0)
    ensures r.Ok? && (ToTimestamp(createdAt).value.None? || ToTimestamp(birth).value.None?) ==> r.value == Null
  {
    var created :- ToTimestamp(createdAt);
    var born :- ToTimestamp(birth);
    if created.None? || born.None? then Ok(Null)
    else
      var d := Seconds(created.value) - Seconds(born.value);
      Ok(Num((d / 86400) as real))
  }

  /** With a birth date at midnight the BI age is the day count of
      `calculate_age`, whatever the claim's time of day. */
  lemma AgeDaysAgreesWithCalculateAge(birth: PyDate, created: PyDateTime)
    ensures AgeDays(Value.Day(birth), Stamp(created)) == Ok(Num(Age.CalculateAge(Value.Day(birth), Stamp(created)).value as real))
  {
    var b: PyDateTime := DateTime(birth, 0, 0, 0);
    var d := Seconds(created) - Seconds(b);
    var k := Ordinal(created.date) - Ordinal(birth);
    assert d == k * 86400 + created.hour * 3600 + created.minute * 60 + created.second;
    assert 0 <= d - k * 86400 < 86400;
    assert d / 86400 == k;
  }

  /** The age of every record, stopping at the first cell that fails. */
  function AgeColumnValues(rows: seq<Row>): (r: Result<seq<Value>>)
    ensures r.Ok? <==> forall i | 0 <= i < |rows| :: AgeDays(Cell(rows[i], Age.Birth), Cell(rows[i], Age.CreatedAt)).Ok?
    ensures r.Ok? ==> |r.value| == |rows|
    ensures r.Ok? ==> forall i | 0 <= i < |rows| :: Ok(r.value[i]) == AgeDays(Cell(rows[i], Age.Birth), Cell(rows[i], Age.CreatedAt))
  {
    if rows == [] then Ok([])
    else
      var a :- AgeDays(Cell(rows[0], Age.Birth), Cell(rows[0], Age.CreatedAt));
      var rest :- AgeColumnValues(rows[1..]);
      assert forall i | 1 <= i < |rows| :: rows[i] == rows[1..][i - 1];
      Ok([a] + rest)
  }

  /** `load_df`: the file's frame with an `age` column of whole days from
      `birth` to `created_at`; both source columns stay. */
  function LoadDf(files: map<string, Frame>, path: string): (r: Result<Frame>)
    ensures path !in files ==> Raises(r, "FileNotFoundError")
    ensures r.Ok? ==> path in files && Age.Birth in files[path].columns && Age.CreatedAt in files[path].columns
    ensures r.Ok? ==> var f := files[path];
      |r.value.rows| == |f.rows| && Age.AgeColumn in r.value.columns
      && (forall c | c in f.columns :: c in r.value.columns)
      && forall i | 0 <= i < |f.rows| ::
        Ok(Cell(r.value.rows[i], Age.AgeColumn)) == AgeDays(Cell(f.rows[i], Age.Birth), Cell(f.rows[i], Age.CreatedAt))
        && forall c | c != Age.AgeColumn :: Cell(r.value.rows[i], c) == Cell(f.rows[i], c)
  {
    if path !in files then Raise(Exc("FileNotFoundError", path))
    else
      var f := files[path];
      if Age.CreatedAt !in f.columns then KeyError(Age.CreatedAt)
      else if Age.Birth !in f.columns then KeyError(Age.Birth)
      else
        var ages :- AgeColumnValues(f.rows);
        Ok(SetColumn(f, Age.AgeColumn, ages))
  }

  /** `load_insurance_claim_df`. */
  function LoadClaims(c: Container, files: map<string, Frame>, path: string): (r: Result<Container>)
    ensures r.Ok? <==> LoadDf(files, path).Ok?
    ensures r.Ok? ==> r.value.claims == Some(LoadDf(files, path).value)
    ensures r.Ok? ==> r.value.predictions == c.predictions && r.value.records == c.records
  {
    var df :- LoadDf(files, path);
    Ok(c.(claims := Some(df)))
  }

  /** `load_prediction_df`: the predictions, then the prediction records. */
  function LoadPredictions(c: Container, files: map<string, Frame>, predictionPath: string, recordPath: string): (r: Result<Container>)
    ensures r.Ok? <==> LoadDf(files, predictionPath).Ok? && LoadDf(files, recordPath).Ok?
    ensures r.Ok? ==> r.value.predictions == Some(LoadDf(files, predictionPath).value)
    ensures r.Ok? ==> r.value.records == Some(LoadDf(files, recordPath).value) && r.value.claims == c.claims
  {
    var p :- LoadDf(files, predictionPath);
    var rec :- LoadDf(files, recordPath);
    Ok(c.(predictions := Some(p), records := Some(rec)))
  }

  // ------------------------------------------------------------ repositories

  const BreedId := "pet_breed_id"
  const GenderColumn := "gender"
  const NeuterColumn := "neuter_yn"

  /** `df.<col>.unique()` on a frame that may be missing: attribute access,
      so an absent frame or column raises `AttributeError`. */
  function UniqueOf(source: Option<Frame>, col: string): (r: Result<seq<Value>>)
    ensures r.Ok? <==> source.Some? && col in source.value.columns
    ensures r.Raise? ==> r.exc.kind == "AttributeError"
    ensures r.Ok? ==> r.value == Distinct(ColumnValues(source.value.rows, col))
  {
    match source
    case None => AttributeError("'NoneType' object has no attribute '" + col + "'")
    case Some(f) =>
      if col !in f.columns then AttributeError("'DataFrame' object has no attribute '" + col + "'")
      else Ok(Distinct(ColumnValues(f.rows, col)))
  }

  /** Whether a cell is a whole number, as the `Breed` record's `name: int` requires. */
  predicate WholeNumber(v: Value) {
    v.Num? && v.x == v.x.Floor as real
  }

  /** `Breed(name=b)` for each value: `ValidationError` for one that is not a whole number. */
  function BreedsOf(vals: seq<Value>): (r: Result<seq<int>>)
    ensures r.Ok? <==> forall i | 0 <= i < |vals| :: WholeNumber(vals[i])
    ensures r.Ok? ==> |r.value| == |vals| && forall i | 0 <= i < |vals| :: r.value[i] as real == vals[i].x
    ensures r.Raise? ==> r.exc.kind == "ValidationError"
  {
    if vals == [] then Ok([])
    else if !WholeNumber(vals[0]) then Raise(Exc("ValidationError", "value is not a valid integer"))
    else
      var rest :- BreedsOf(vals[1..]);
      assert forall i | 1 <= i < |vals| :: vals[i] == vals[1..][i - 1];
      Ok([vals[0].x.Floor] + rest)
  }

  /** `BreedRepository.select`: one breed per distinct `pet_breed_id`. */
  function SelectBreeds(c: Container): (r: Result<seq<int>>)
    ensures r.Ok? ==> c.claims.Some? && BreedId in c.claims.value.columns
    ensures r.Ok? ==> var vals := Distinct(ColumnValues(c.claims.value.rows, BreedId));
      |r.value| == |vals| && forall i | 0 <= i < |vals| :: WholeNumber(vals[i]) && r.value[i] as real == vals[i].x
  {
    var vals :- UniqueOf(c.claims, BreedId);
    BreedsOf(vals)
  }

  /** `EnumClass(v)` for each value: `ValueError` for one that is not a
      member's value. */
  function MembersOf<T>(vals: seq<Value>, members: seq<T>, value: T -> string): (r: Result<seq<T>>)
    ensures r.Ok? <==> forall i | 0 <= i < |vals| :: vals[i].Str? && Lookup(members, value, vals[i].s).Some?
    ensures r.Raise? ==> r.exc.kind == "ValueError"
    ensures r.Ok? ==> |r.value| == |vals| && forall i | 0 <= i < |vals| :: Str(value(r.value[i])) == vals[i]
  {
    if vals == [] then Ok([])
    else if !vals[0].Str? || Lookup(members, value, vals[0].s).None? then ValueError("is not a valid enumeration value")
    else
      var rest :- MembersOf(vals[1..], members, value);
      assert forall i | 1 <= i < |vals| :: vals[i] == vals[1..][i - 1];
      Ok([Lookup(members, value, vals[0].s).value] + rest)
  }

  /** `GenderRepository.select`: one member per distinct `gender`. */
  function SelectGenders(c: Container): (r: Result<seq<Gender>>)
    ensures r.Ok? ==> c.claims.Some? && GenderColumn in c.claims.value.columns
    ensures r.Ok? ==> MapSeq(r.value, (g: Gender) => Str(GenderValue(g))) == Distinct(ColumnValues(c.claims.value.rows, GenderColumn))
  {
    var vals :- UniqueOf(c.claims, GenderColumn);
    MembersOf(vals, Genders, GenderValue)
  }

  /** `NeutralizedRepository.select`: one member per distinct `neuter_yn`. */
  function SelectNeuterStates(c: Container): (r: Result<seq<Neutralized>>)
    ensures r.Ok? ==> c.claims.Some? && NeuterColumn in c.claims.value.columns
    ensures r.Ok? ==> MapSeq(r.value, (n: Neutralized) => Str(NeutralizedValue(n))) == Distinct(ColumnValues(c.claims.value.rows, NeuterColumn))
  {
    var vals :- UniqueOf(c.claims, NeuterColumn);
    MembersOf(vals, NeuterStates, NeutralizedValue)
  }

  /** The optional arguments of the claim and prediction repositories. */
  datatype Filters = Filters(breed: Option<Value>, age: Option<Value>, gender: Option<Value>, neutralized: Option<Value>)

  const NoFilters := Filters(None, None, None, None)

  /** `if arg:` — an argument that is given and truthy. */
  predicate Given(o: Option<Value>) {
    o.Some? && Truthy(o.value)
  }

  /** The equality filters that apply, as (column, value) in the order the
      repositories test them. */
  function Active(f: Filters): (r: seq<(string, Value)>)
    ensures forall p | p in r :: p.0 in [BreedId, Age.AgeColumn, GenderColumn, NeuterColumn]
  {
    (if Given(f.breed) then [(BreedId, f.breed.value)] else [])
    + (if Given(f.age) then [(Age.AgeColumn, f.age.value)] else [])
    + (if Given(f.gender) then [(GenderColumn, f.gender.value)] else [])
    + (if Given(f.neutralized) then [(NeuterColumn, f.neutralized.value)] else [])
  }

  /** `df = df[df.<col> == v]` for each filter in turn; the frame itself is
      returned, possibly `None`, when no filter applies. */
  function SelectWhere(source: Option<Frame>, conds: seq<(string, Value)>): (r: Result<Option<Frame>>)
    ensures conds == [] ==> r == Ok(source)
    ensures source.None? && conds != [] ==> Raises(r, "AttributeError")
    ensures r.Ok? && conds != [] ==> r.value.Some? && source.Some? && r.value.value.columns == source.value.columns
    ensures source.Some? ==> (r.Ok? <==> forall p | p in conds :: p.0 in source.value.columns)
    decreases |conds|
  {
    if conds == [] then Ok(source)
    else match source
      case None => AttributeError("'NoneType' object has no attribute '" + conds[0].0 + "'")
      case Some(f) =>
        if conds[0].0 !in f.columns then AttributeError("'DataFrame' object has no attribute '" + conds[0].0 + "'")
        else
          WhereSpec(f, Equals(conds[0].0, conds[0].1));
          var g := Where(f, Equals(conds[0].0, conds[0].1)).value;
          assert forall p | p in conds :: p == conds[0] || p in conds[1..];
          SelectWhere(Some(g), conds[1..])
  }

  /** A record passes every equality filter. */
  predicate MatchesAll(row: Row, conds: seq<(string, Value)>) {
    forall p | p in conds :: PyEq(Cell(row, p.0), p.1)
  }

  /** A successful selection keeps, in order, exactly the records equal to
      every filter value. */
  lemma {:induction false} SelectWhereSpec(f: Frame, conds: seq<(string, Value)>)
    requires SelectWhere(Some(f), conds).Ok?
    ensures SelectWhere(Some(f), conds).value.Some?
    ensures SelectWhere(Some(f), conds).value.value.rows == Filter(f.rows, row => MatchesAll(row, conds))
    decreases |conds|
  {
    if conds == [] {
      assert forall row :: MatchesAll(row, conds);
      FilterAll(f.rows, row => MatchesAll(row, conds));
    } else {
      var c := Equals(conds[0].0, conds[0].1);
      WhereSpec(f, c);
      var g := Where(f, c).value;
      SelectWhereSpec(g, conds[1..]);
      var p := (row: Row) => Satisfies(row, c);
      var q := (row: Row) => MatchesAll(row, conds[1..]);
      forall row ensures MatchesAll(row, conds) == (p(row) && q(row)) {
        assert forall x | x in conds :: x == conds[0] || x in conds[1..];
      }
      FilterTwice(f.rows, p, q, row => MatchesAll(row, conds));
    }
  }

  /** `ClaimPriceRepository.select`. */
  function SelectClaims(c: Container, f: Filters): (r: Result<Option<Frame>>)
    ensures Active(f) == [] ==> r == Ok(c.claims)
    ensures c.claims.Some? && r.Ok? ==> r.value.Some? && r.value.value.columns == c.claims.value.columns
  {
    SelectWhere(c.claims, Active(f))
  }

  /** `ClaimPricePredictionRepository.select`. */
  function SelectPredictions(c: Container, f: Filters): (r: Result<Option<Frame>>)
    ensures Active(f) == [] ==> r == Ok(c.predictions)
    ensures c.predictions.Some? && r.Ok? ==> r.value.Some? && r.value.value.columns == c.predictions.value.columns
  {
    SelectWhere(c.predictions, Active(f))
  }

  /** An argument that is missing, zero or the empty string is not a
      filter; when no argument is a filter both repositories return their
      frame as it is. */
  lemma FalsyArgumentsIgnored(c: Container, f: Filters)
    ensures forall o: Option<Value> :: !Given(o) <==> o.None? || o.value == Num(0.0) || o.value == Str("")
    ensures Active(f) == [] <==> !Given(f.breed) && !Given(f.age) && !Given(f.gender) && !Given(f.neutralized)
    ensures Active(f) == [] ==> SelectClaims(c, f) == Ok(c.claims) && SelectPredictions(c, f) == Ok(c.predictions)
  {
  }
}
