/** The serving backend's feature preparation: `DataPreprocessPipeline.preprocess`
  remaps breed ids outside the training vocabulary to `0`, derives `age` when
  the batch has none, and records the age and weight ranges; a request is
  preprocessed and then only transformed by the loaded column transformer,
  and the response echoes the request with the age in whole years.

  The column transformer is opaque: a `Fitted` tag names the pickled object
  and `transform` yields a symbolic `Encoded` value recording what it was
  applied to.
 */
module BackendPreprocess {
  import opened Wrappers
  import opened Calendar
  import opened Frames
  import opened Age
  import opened Text
  import opened Paths

  const BreedColumn := "pet_breed_id"
  const WeightColumn := "weight_kg"
  const Fallback := Num(0.0)

  /** `x in breeds` for the numpy array of training breeds: some element is
      `==` to `x` (so a missing id is never in the vocabulary). */
  predicate InVocabulary(v: Value, breeds: seq<Value>) {
    exists i | 0 <= i < |breeds| :: PyEq(v, breeds[i])
  }

  function Remapped(v: Value, breeds: seq<Value>): Value {
    if InVocabulary(v, breeds) then v else Fallback
  }

  /** `x['pet_breed_id'] = x['pet_breed_id'].apply(lambda x: x if x in breeds else 0)`. */
  function RemapBreeds(x: Frame, breeds: seq<Value>): (r: Result<Frame>)
    ensures r.Raise? <==> BreedColumn !in x.columns
    ensures r.Ok? ==> r.value.columns == x.columns && |r.value.rows| == |x.rows|
    ensures r.Ok? ==> forall i | 0 <= i < |x.rows| ::
      var before := Cell(x.rows[i], BreedColumn);
      var after := Cell(r.value.rows[i], BreedColumn);
      (InVocabulary(before, breeds) ==> after == before) && (!InVocabulary(before, breeds) ==> after == Fallback)
    ensures r.Ok? ==> forall i, c | 0 <= i < |x.rows| && c != BreedColumn :: Cell(r.value.rows[i], c) == Cell(x.rows[i], c)
  {
    if BreedColumn !in x.columns then KeyError(BreedColumn)
    else
      var vals := seq(|x.rows|, i requires 0 <= i < |x.rows| => Remapped(Cell(x.rows[i], BreedColumn), breeds));
      var g := SetColumn(x, BreedColumn, vals);
      assert forall c :: c in g.columns <==> c in x.columns;
      Ok(Frame(x.columns, g.rows))
  }

  /** The ranges `preprocess` records (`self.age_max`, `self.age_min`, ...). */
  datatype Stats = Stats(ageMax: Value, ageMin: Value, weightMax: Value, weightMin: Value)

  datatype Preprocessed = Preprocessed(frame: Frame, stats: Stats)

  /** The present values of a column are of one kind and the range is taken
      over them. */
  function Range(x: Frame, col: string): (r: Result<(Value, Value)>)
    ensures r.Ok? <==> Extreme(ColumnValues(x.rows, col), true).Ok?
    ensures r.Ok? ==> Extreme(ColumnValues(x.rows, col), true) == Ok(r.value.0)
    ensures r.Ok? ==> Extreme(ColumnValues(x.rows, col), false) == Ok(r.value.1)
  {
    var vals := ColumnValues(x.rows, col);
    var hi :- Extreme(vals, true);
    Ok((hi, Extreme(vals, false).value))
  }

  /** With one present value the range is ordered: `min <= max`. */
  lemma RangeOrdered(x: Frame, col: string, i: int)
    requires Range(x, col).Ok?
    requires 0 <= i < |x.rows| && Cell(x.rows[i], col) != Null
    ensures Comparable(Range(x, col).value.1, Range(x, col).value.0)
    ensures !Lt(Range(x, col).value.0, Range(x, col).value.1)
  {
    var vals := ColumnValues(x.rows, col);
    assert vals[i] != Null;
    var lo := Extreme(vals, false).value;
    assert lo in vals;
  }

  /** `age` is derived only when the batch lacks it. */
  function AgeStep(f: Frame): (r: Result<Frame>)
    ensures AgeColumn in f.columns ==> r == Ok(f)
    ensures AgeColumn !in f.columns ==> r == WithAge(f)
  {
    if AgeColumn in f.columns then Ok(f) else WithAge(f)
  }

  /** `DataPreprocessPipeline.preprocess(x, breeds)`. */
  function Preprocess(x: Frame, breeds: seq<Value>): (r: Result<Preprocessed>)
    ensures BreedColumn !in x.columns ==> r == KeyError(BreedColumn)
    ensures BreedColumn in x.columns && AgeColumn !in x.columns && x.rows == [] && |x.columns| != 1 ==> r.Raise? && r.exc.kind == "ValueError"
    ensures r.Ok? ==> |r.value.frame.rows| == |x.rows|
    ensures r.Ok? ==> AgeColumn in r.value.frame.columns
    ensures r.Ok? ==> RemapBreeds(x, breeds).Ok? && AgeStep(RemapBreeds(x, breeds).value) == Ok(r.value.frame)
    ensures r.Ok? ==> WeightColumn in r.value.frame.columns
    ensures r.Ok? ==> Range(r.value.frame, AgeColumn) == Ok((r.value.stats.ageMax, r.value.stats.ageMin))
    ensures r.Ok? ==> Range(r.value.frame, WeightColumn) == Ok((r.value.stats.weightMax, r.value.stats.weightMin))
  {
    var remapped :- RemapBreeds(x, breeds);
    var withAge :- AgeStep(remapped);
    var ages :- Range(withAge, AgeColumn);
    if WeightColumn !in withAge.columns then KeyError(WeightColumn)
    else
      var weights :- Range(withAge, WeightColumn);
      Ok(Preprocessed(withAge, Stats(ages.0, ages.1, weights.0, weights.1)))
  }

  /** After `preprocess` every breed id is in the vocabulary or is the
      fallback `0`; ids in the vocabulary are kept; no row is dropped. */
  lemma PreprocessBreeds(x: Frame, breeds: seq<Value>)
    requires Preprocess(x, breeds).Ok?
    ensures var out := Preprocess(x, breeds).value.frame;
      |out.rows| == |x.rows|
      && (forall i | 0 <= i < |x.rows| :: InVocabulary(Cell(out.rows[i], BreedColumn), breeds) || Cell(out.rows[i], BreedColumn) == Fallback)
      && (forall i | 0 <= i < |x.rows| && InVocabulary(Cell(x.rows[i], BreedColumn), breeds) ::
            Cell(out.rows[i], BreedColumn) == Cell(x.rows[i], BreedColumn))
  {
    AgeStepKeepsBreed(RemapBreeds(x, breeds).value);
  }

  /** Deriving the age leaves every breed id in place. */
  lemma AgeStepKeepsBreed(f: Frame)
    requires AgeStep(f).Ok?
    ensures |AgeStep(f).value.rows| == |f.rows|
    ensures forall i | 0 <= i < |f.rows| :: Cell(AgeStep(f).value.rows[i], BreedColumn) == Cell(f.rows[i], BreedColumn)
  {
    assert BreedColumn != AgeColumn && BreedColumn != Birth && BreedColumn != CreatedAt;
  }

  /** After remapping every id is a training breed or the fallback `0`,
      which is used even when `0` itself is not a training breed; then an
      id is a training breed afterwards exactly when it was before. */
  lemma RemapIntoVocabulary(x: Frame, breeds: seq<Value>)
    requires BreedColumn in x.columns
    ensures forall i | 0 <= i < |x.rows| ::
      var after := Cell(RemapBreeds(x, breeds).value.rows[i], BreedColumn);
      InVocabulary(after, breeds) || after == Fallback
    ensures !InVocabulary(Fallback, breeds) ==> forall i | 0 <= i < |x.rows| ::
      InVocabulary(Cell(RemapBreeds(x, breeds).value.rows[i], BreedColumn), breeds) <==> InVocabulary(Cell(x.rows[i], BreedColumn), breeds)
  {
  }

  /** A batch that already has `age` keeps `birth` and `created_at` and its
      ages; otherwise the age is derived per row and both columns are gone. */
  lemma PreprocessAgeColumns(x: Frame, breeds: seq<Value>)
    requires Preprocess(x, breeds).Ok?
    ensures var out := Preprocess(x, breeds).value.frame;
      if AgeColumn in x.columns then
        out.columns == x.columns && forall i | 0 <= i < |x.rows| :: Cell(out.rows[i], AgeColumn) == Cell(x.rows[i], AgeColumn)
      else
        Birth !in out.columns && CreatedAt !in out.columns
        && forall i | 0 <= i < |x.rows| ::
             Cell(out.rows[i], AgeColumn) == Num(CalculateAge(Cell(x.rows[i], Birth), Cell(x.rows[i], CreatedAt)).value as real)
  {
    var remapped := RemapBreeds(x, breeds).value;
    assert BreedColumn != AgeColumn && BreedColumn != Birth && BreedColumn != CreatedAt;
    if AgeColumn !in x.columns {
      var w := WithAge(remapped).value;
      forall i | 0 <= i < |x.rows|
        ensures Cell(w.rows[i], AgeColumn) == Num(CalculateAge(Cell(x.rows[i], Birth), Cell(x.rows[i], CreatedAt)).value as real)
      {
        assert Cell(remapped.rows[i], Birth) == Cell(x.rows[i], Birth);
        assert Cell(remapped.rows[i], CreatedAt) == Cell(x.rows[i], CreatedAt);
      }
    }
  }

  /** For a batch with at least one age, the recorded minimum is at most the
      maximum (`age_min <= age_max`); likewise for the weight. */
  lemma StatsOrdered(x: Frame, breeds: seq<Value>, i: int)
    requires Preprocess(x, breeds).Ok?
    requires 0 <= i < |x.rows|
    requires Cell(Preprocess(x, breeds).value.frame.rows[i], AgeColumn) != Null
    requires Cell(Preprocess(x, breeds).value.frame.rows[i], WeightColumn) != Null
    ensures var s := Preprocess(x, breeds).value.stats;
      Comparable(s.ageMin, s.ageMax) && !Lt(s.ageMax, s.ageMin)
      && Comparable(s.weightMin, s.weightMax) && !Lt(s.weightMax, s.weightMin)
  {
    var out := Preprocess(x, breeds).value.frame;
    RangeOrdered(out, AgeColumn, i);
    RangeOrdered(out, WeightColumn, i);
  }

  // ------------------------------------------------------------ serving

  /** The loaded column transformer, named by the file it was read from,
      with the columns it was fitted to read (held in the pickle). */
  datatype Fitted = Fitted(path: string, columns: seq<string>)

  /** The frame has every column the transformer was fitted to read. */
  predicate Readable(p: Fitted, x: Frame) {
    forall c | c in p.columns :: c in x.columns
  }

  /** What `transform` produced, kept symbolic. */
  datatype Encoded = Encoded(fitted: Fitted, input: Frame)

  datatype Backend = Backend(pipeline: Option<Fitted>, stats: Option<Stats>)

  /** `transform(x)`: uses the current transformer; without one the call
      hits `None.transform`, and a fitted `ColumnTransformer` given a frame
      that lacks one of its columns raises `ValueError`. */
  function Transform(b: Backend, x: Frame): (r: Result<Encoded>)
    ensures r.Ok? <==> b.pipeline.Some? && Readable(b.pipeline.value, x)
    ensures r.Ok? ==> r.value.fitted == b.pipeline.value && r.value.input == x
    ensures b.pipeline.None? ==> Raises(r, "AttributeError")
    ensures b.pipeline.Some? && r.Raise? ==> r.exc.kind == "ValueError"
  {
    match b.pipeline
    case None => AttributeError("'NoneType' object has no attribute 'transform'")
    case Some(p) => if Readable(p, x) then Ok(Encoded(p, x)) else ValueError("columns are missing")
  }

  /** The request body (`PetInfo`). */
  datatype PetInfo = PetInfo(petBreedId: int, birth: PyDate, gender: string, neuterYn: string, weightKg: real, createdAt: PyDateTime)

  /** `pd.DataFrame([input.dict()])`: one record. */
  function RequestFrame(p: PetInfo): (f: Frame)
    ensures |f.rows| == 1 && AgeColumn !in f.columns
  {
    Frame([BreedColumn, Birth, "gender", "neuter_yn", WeightColumn, CreatedAt],
          [map[BreedColumn := Num(p.petBreedId as real), Birth := Value.Day(p.birth), "gender" := Str(p.gender),
               "neuter_yn" := Str(p.neuterYn), WeightColumn := Num(p.weightKg), CreatedAt := Stamp(p.createdAt)]])
  }

  /** `preprocess_request_input`: preprocess against the training breeds,
      then transform with the loaded transformer; nothing is fitted, so the
      transformer is the same afterwards, and only the ranges change. */
  function PreprocessRequestInput(breeds: seq<Value>, b: Backend, p: PetInfo): (r: (Result<Encoded>, Backend))
  {
    PreprocessThenTransform(breeds, b, RequestFrame(p))
  }

  function PreprocessThenTransform(breeds: seq<Value>, b: Backend, x: Frame): (r: (Result<Encoded>, Backend))
    ensures r.1.pipeline == b.pipeline
    ensures r.0.Ok? ==>
      && Preprocess(x, breeds).Ok?
      && b.pipeline.Some?
      && r.0.value == Encoded(b.pipeline.value, Preprocess(x, breeds).value.frame)
      && r.1.stats == Some(Preprocess(x, breeds).value.stats)
    ensures r.0.Ok? <==> Preprocess(x, breeds).Ok? && b.pipeline.Some? && Readable(b.pipeline.value, Preprocess(x, breeds).value.frame)
    ensures Preprocess(x, breeds).Ok? && b.pipeline.Some? && r.0.Raise? ==> r.0.exc.kind == "ValueError"
  {
    match Preprocess(x, breeds)
    case Raise(e) => (Raise(e), b)
    case Ok(pre) =>
      var b' := b.(stats := Some(pre.stats));
      (Transform(b', pre.frame), b')
  }

  /** The columns of a preprocessed request. */
  const RequestFeatures := [BreedColumn, "gender", "neuter_yn", WeightColumn, AgeColumn]

  /** A request reaches the transformer with exactly the breed, gender,
      neuter state, weight and age columns. */
  lemma RequestColumns(breeds: seq<Value>, p: PetInfo)
    ensures Preprocess(RequestFrame(p), breeds).Ok?
    ensures forall c :: c in Preprocess(RequestFrame(p), breeds).value.frame.columns <==> c in RequestFeatures
  {
    RequestPreprocessed(breeds, p);
    var x := RequestFrame(p);
    var y := RemapBreeds(x, breeds).value;
    var out := Preprocess(x, breeds).value.frame;
    assert out == AgeStep(y).value;
    FeaturesAfterAge(x.columns);
  }

  /** Replacing `birth` and `created_at` by `age` in a request's columns
      leaves the five feature columns. */
  lemma FeaturesAfterAge(cols: seq<string>)
    requires cols == [BreedColumn, Birth, "gender", "neuter_yn", WeightColumn, CreatedAt]
    ensures forall c :: (c in cols || c == AgeColumn) && c != Birth && c != CreatedAt <==> c in RequestFeatures
  {
  }

  /** A request is transformed exactly when a transformer is loaded that
      reads none but the request's five feature columns. */
  lemma RequestTransforms(breeds: seq<Value>, b: Backend, p: PetInfo)
    ensures PreprocessRequestInput(breeds, b, p).0.Ok? <==> b.pipeline.Some? && forall c | c in b.pipeline.value.columns :: c in RequestFeatures
  {
    RequestColumns(breeds, p);
  }

  /** A request always preprocesses: its single record gets the remapped
      breed and the day age, and loses `birth` and `created_at`. */
  lemma RequestPreprocessed(breeds: seq<Value>, p: PetInfo)
    ensures Preprocess(RequestFrame(p), breeds).Ok?
    ensures CalculateAge(Value.Day(p.birth), Stamp(p.createdAt)).Ok?
    ensures var out := Preprocess(RequestFrame(p), breeds).value.frame;
      |out.rows| == 1
      && Cell(out.rows[0], AgeColumn) == Num(CalculateAge(Value.Day(p.birth), Stamp(p.createdAt)).value as real)
      && Cell(out.rows[0], BreedColumn) == Remapped(Num(p.petBreedId as real), breeds)
      && Birth !in out.columns && CreatedAt !in out.columns
  {
    RequestRemapped(breeds, p);
    var x := RequestFrame(p);
    OneRecord(breeds, x);
    var y := RemapBreeds(x, breeds).value;
    var out := Preprocess(x, breeds).value.frame;
    assert out == AgeStep(y).value;
  }

  lemma OneRecord(breeds: seq<Value>, x: Frame)
    requires RemapBreeds(x, breeds).Ok?
    requires var y := RemapBreeds(x, breeds).value;
      |y.rows| == 1 && AgeColumn !in y.columns
      && Birth in y.columns && CreatedAt in y.columns && WeightColumn in y.columns
      && Cell(y.rows[0], Birth).Day? && Cell(y.rows[0], CreatedAt).Stamp? && Cell(y.rows[0], WeightColumn).Num?
    ensures Preprocess(x, breeds).Ok?
    ensures Preprocess(x, breeds).value.frame == AgeStep(RemapBreeds(x, breeds).value).value
    ensures var y := RemapBreeds(x, breeds).value;
      var out := AgeStep(y).value;
      |out.rows| == 1
      && Cell(out.rows[0], AgeColumn) == Num(CalculateAge(Cell(y.rows[0], Birth), Cell(y.rows[0], CreatedAt)).value as real)
      && Cell(out.rows[0], BreedColumn) == Cell(y.rows[0], BreedColumn)
      && Birth !in out.columns && CreatedAt !in out.columns
  {
    var y := RemapBreeds(x, breeds).value;
    OneRecordPreprocess(y);
    PreprocessOfSteps(x, breeds);
    assert Preprocess(x, breeds).Ok?;
  }

  /** `preprocess` succeeds when each of its steps does. */
  lemma PreprocessOfSteps(x: Frame, breeds: seq<Value>)
    requires RemapBreeds(x, breeds).Ok? && AgeStep(RemapBreeds(x, breeds).value).Ok?
    requires var w := AgeStep(RemapBreeds(x, breeds).value).value;
      Range(w, AgeColumn).Ok? && WeightColumn in w.columns && Range(w, WeightColumn).Ok?
    ensures Preprocess(x, breeds).Ok?
    ensures Preprocess(x, breeds).value.frame == AgeStep(RemapBreeds(x, breeds).value).value
  {
  }

  lemma RequestRemapped(breeds: seq<Value>, p: PetInfo)
    ensures RemapBreeds(RequestFrame(p), breeds).Ok?
    ensures var y := RemapBreeds(RequestFrame(p), breeds).value;
      |y.rows| == 1 && AgeColumn !in y.columns
      && Birth in y.columns && CreatedAt in y.columns && WeightColumn in y.columns
      && Cell(y.rows[0], Birth) == Value.Day(p.birth)
      && Cell(y.rows[0], CreatedAt) == Stamp(p.createdAt)
      && Cell(y.rows[0], WeightColumn) == Num(p.weightKg)
      && Cell(y.rows[0], BreedColumn) == Remapped(Num(p.petBreedId as real), breeds)
  {
    var x := RequestFrame(p);
    assert Cell(x.rows[0], Birth) == Value.Day(p.birth);
    assert Cell(x.rows[0], CreatedAt) == Stamp(p.createdAt);
    assert Cell(x.rows[0], WeightColumn) == Num(p.weightKg);
    assert Cell(x.rows[0], BreedColumn) == Num(p.petBreedId as real);
    assert BreedColumn in x.columns && Birth in x.columns && CreatedAt in x.columns && WeightColumn in x.columns;
  }

  /** The age and range steps succeed on a single record with a date of
      birth, a claim timestamp and a numeric weight. */
  lemma OneRecordPreprocess(y: Frame)
    requires |y.rows| == 1 && AgeColumn !in y.columns
    requires Birth in y.columns && CreatedAt in y.columns && WeightColumn in y.columns
    requires Cell(y.rows[0], Birth).Day? && Cell(y.rows[0], CreatedAt).Stamp? && Cell(y.rows[0], WeightColumn).Num?
    ensures AgeStep(y).Ok?
    ensures var w := AgeStep(y).value;
      Range(w, AgeColumn).Ok? && WeightColumn in w.columns && Range(w, WeightColumn).Ok?
      && |w.rows| == 1 && Birth !in w.columns && CreatedAt !in w.columns
      && Cell(w.rows[0], AgeColumn) == Num(CalculateAge(Cell(y.rows[0], Birth), Cell(y.rows[0], CreatedAt)).value as real)
      && Cell(w.rows[0], BreedColumn) == Cell(y.rows[0], BreedColumn)
  {
    assert CalculateAge(Cell(y.rows[0], Birth), Cell(y.rows[0], CreatedAt)).Ok?;
    assert Ages(y.rows).Ok?;
    var w := WithAge(y).value;
    assert Cell(w.rows[0], WeightColumn) == Cell(y.rows[0], WeightColumn);
    SingleRange(w, WeightColumn);
    SingleRange(w, AgeColumn);
  }

  lemma SingleRange(w: Frame, col: string)
    requires |w.rows| == 1
    ensures Range(w, col).Ok?
  {
    assert ColumnValues(w.rows, col) == [Cell(w.rows[0], col)];
  }

  /** The response (`PetPredictResult`) without the rounded price. */
  datatype PetPredictResult = PetPredictResult(petBreedId: int, age: int, gender: string, neuterYn: string, weightKg: real)

  /** `postprocess_output`: the request's fields are copied and the age is
      the whole-day age floored to 360-day years. */
  function PostprocessOutput(p: PetInfo): (r: PetPredictResult)
    ensures r.petBreedId == p.petBreedId && r.gender == p.gender && r.neuterYn == p.neuterYn && r.weightKg == p.weightKg
    ensures CalculateAge(Value.Day(p.birth), Stamp(p.createdAt)) == Ok(0) ==> r.age == 0
  {
    var days := CalculateAge(Value.Day(p.birth), Stamp(p.createdAt)).value;
    PetPredictResult(p.petBreedId, Years(days), p.gender, p.neuterYn, p.weightKg)
  }

  /** The response's age is the years of the day age the model was fed, and
      it is negative exactly when the claim predates the birth. */
  lemma ResponseAgeMatchesFeature(breeds: seq<Value>, p: PetInfo)
    ensures Preprocess(RequestFrame(p), breeds).Ok?
    ensures CalculateAge(Value.Day(p.birth), Stamp(p.createdAt)).Ok?
    ensures var days := CalculateAge(Value.Day(p.birth), Stamp(p.createdAt)).value;
      Cell(Preprocess(RequestFrame(p), breeds).value.frame.rows[0], AgeColumn) == Num(days as real)
      && 360 * PostprocessOutput(p).age <= days < 360 * (PostprocessOutput(p).age + 1)
      && (PostprocessOutput(p).age < 0 <==> DateBefore(p.createdAt.date, p.birth))
  {
    RequestPreprocessed(breeds, p);
    var created: PyDate := p.createdAt.date;
    AgeIgnoresTime(Value.Day(p.birth), p.createdAt, p.createdAt);
    AgeSign(p.birth, created);
  }

  // ------------------------------------------------------------ persistence

  /** The pickled objects on disk, by path. */
  type Disk = map<string, Fitted>

  /** `dump_pipeline(file_path)`: the object is written at the `.pkl`
      normalised path, which is returned. */
  function DumpPipeline(disk: Disk, pipeline: Fitted, path: string): (r: (string, Disk))
    ensures EndsWith(r.0, PklExt)
    ensures r.1 == disk[r.0 := pipeline]
    ensures SplitExt(path).1 == PklExt ==> r.0 == path
  {
    var p := WithExt(path, PklExt);
    (p, disk[p := pipeline])
  }

  /** `load_pipeline(file_path)`: a missing file raises. */
  function LoadPipeline(disk: Disk, b: Backend, path: string): (r: Result<Backend>)
    ensures r.Ok? <==> path in disk
    ensures r.Ok? ==> r.value == b.(pipeline := Some(disk[path]))
  {
    if path in disk then Ok(b.(pipeline := Some(disk[path])))
    else Raise(Exc("FileNotFoundError", "No such file or directory: '" + path + "'"))
  }

  /** Loading from the returned path restores the dumped transformer, and a
      second dump to that path writes the same file. */
  lemma DumpLoadRoundTrip(disk: Disk, b: Backend, pipeline: Fitted, path: string)
    requires NamedLastComponent(path)
    ensures var (p, d) := DumpPipeline(disk, pipeline, path);
      LoadPipeline(d, b, p) == Ok(b.(pipeline := Some(pipeline)))
      && DumpPipeline(d, pipeline, p) == (p, d)
  {
    WithExtIdempotent(path, PklExt);
    var (p, d) := DumpPipeline(disk, pipeline, path);
    assert d[p := pipeline] == d;
  }
}
