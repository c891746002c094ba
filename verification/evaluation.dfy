/** The trainer's bookkeeping: the evaluation frame built from the test
  features, the true prices and the predictions; the residual and error rate
  per row; the two logged outlier groups; and which artifact paths a
  training run records. Training, prediction and the error metrics are
  library numerics: the predictions are an input, and of the metrics only
  their refusal of an empty or incomplete frame is modelled, not their
  values. */
module Evaluation {
  import opened Wrappers
  import opened Text
  import opened Seqs
  import opened Frames
  import opened Paths
  import ConfigPreprocess

  const YTrue := "y_true"
  const YPred := "y_pred"
  const DiffColumn := "diff"
  const ErrorRate := "error_rate"
  const ClaimPrice := "claim_price"

  /** The four columns appended to the features. */
  predicate Appended(c: string) {
    c == YTrue || c == YPred || c == DiffColumn || c == ErrorRate
  }

  /** `diff = y_true - y_pred`, `error_rate = diff / y_true`. */
  function Residual(truth: Value, pred: Value): (r: Result<(Value, Value)>)
    ensures truth.Num? && pred.Num? ==> r.Ok? && r.value.0 == Num(truth.x - pred.x)
    ensures truth.Num? && pred.Num? && truth.x != 0.0 ==> r.Ok? && r.value.1 == Num((truth.x - pred.x) / truth.x)
    ensures r.Ok? ==> Sub(truth, pred) == Ok(r.value.0) && Div(r.value.0, truth) == Ok(r.value.1)
    ensures r.Raise? <==> truth != Null && pred != Null && !(truth.Num? && pred.Num?)
    ensures truth == Null || pred == Null ==> r == Ok((Null, Null))
  {
    var diff :- Sub(truth, pred);
    match Div(diff, truth)
    case Ok(rate) => Ok((diff, rate))
    case Raise(e) => Raise(e)
  }

  /** One row of the evaluation frame: the features of row `i` (none past the
      end of the features) and the target columns (missing past the end of
      the targets), as `pd.concat(axis=1)` aligns them by position. */
  function EvalRow(features: seq<Row>, truths: seq<Value>, preds: seq<real>, i: nat): (r: Result<Row>)
    requires |truths| == |preds|
    ensures r.Ok? ==> forall c | !Appended(c) :: Cell(r.value, c) == (if i < |features| then Cell(features[i], c) else Null)
    ensures r.Ok? && i < |truths| ==> Cell(r.value, YTrue) == truths[i] && Cell(r.value, YPred) == Num(preds[i])
    ensures r.Ok? && i >= |truths| ==> Cell(r.value, YTrue) == Null && Cell(r.value, YPred) == Null
    ensures r.Ok? ==> Residual(Cell(r.value, YTrue), Cell(r.value, YPred)) == Ok((Cell(r.value, DiffColumn), Cell(r.value, ErrorRate)))
    ensures r.Raise? ==> i < |truths| && Residual(truths[i], Num(preds[i])).Raise?
  {
    var base: Row := if i < |features| then features[i] else map[];
    var truth := if i < |truths| then truths[i] else Null;
    var pred := if i < |truths| then Num(preds[i]) else Null;
    var (diff, rate) :- Residual(truth, pred);
    Ok(base[YTrue := truth][YPred := pred][DiffColumn := diff][ErrorRate := rate])
  }

  /** The first `n` rows of the evaluation frame, built in order and stopping
      at the first that raises. */
  function EvalRows(features: seq<Row>, truths: seq<Value>, preds: seq<real>, n: nat): (r: Result<seq<Row>>)
    requires |truths| == |preds|
    ensures r.Ok? ==> |r.value| == n
    ensures r.Ok? ==> forall i | 0 <= i < n :: EvalRow(features, truths, preds, i) == Ok(r.value[i])
    ensures r.Raise? ==> exists i | 0 <= i < n :: EvalRow(features, truths, preds, i).Raise?
  {
    var idx := Indices(n);
    var r := Collect(idx, (i: nat) => EvalRow(features, truths, preds, i));
    assert forall i | 0 <= i < n :: idx[i] == i;
    r
  }

  function Max(a: nat, b: nat): nat {
    if a < b then b else a
  }

  /** The rows logged by `__evaluate`. */
  datatype Evaluation = Evaluation(evalDf: Frame, expensive: seq<Row>, cheaper: seq<Row>)

  function AtLeast(row: Row, bound: real): bool {
    Ge(Cell(row, DiffColumn), Num(bound)) == Ok(true)
  }

  function AtMost(row: Row, bound: real): bool {
    Le(Cell(row, DiffColumn), Num(bound)) == Ok(true)
  }

  const Outlier: real := 100000.0

  /** `df[df["diff"] >= 100000]`, logged as predicted 100k or more too high. */
  function ExpensiveGroup(rows: seq<Row>): seq<Row> {
    Filter(rows, row => AtLeast(row, Outlier))
  }

  /** `df[df["diff"] <= -100000]`, logged as predicted 100k or more too low. */
  function CheaperGroup(rows: seq<Row>): seq<Row> {
    Filter(rows, row => AtMost(row, -Outlier))
  }

  /** What the three sklearn error metrics accept: at least one row, and a
      number in both `y_true` and `y_pred` of every row. A missing value
      (as `concat` leaves past the end of the targets) or an empty frame
      makes them raise `ValueError`. */
  predicate MetricsDefined(rows: seq<Row>) {
    |rows| > 0 && forall i | 0 <= i < |rows| :: Cell(rows[i], YTrue).Num? && Cell(rows[i], YPred).Num?
  }

  /** `Trainer.evaluate(model, x, y)`: `y` must carry `claim_price`, the
      targets and predictions must be equally long, the residuals must be
      computable, and the metrics must accept the two target columns. */
  function Evaluate(x: Frame, y: Frame, preds: seq<real>): (r: Result<Evaluation>)
    ensures ClaimPrice !in y.columns ==> r.Raise? && r.exc.kind == "AttributeError"
    ensures ClaimPrice in y.columns && |y.rows| != |preds| ==> r.Raise? && r.exc.kind == "ValueError"
    ensures ClaimPrice in y.columns && |y.rows| == |preds| ==>
      var rows := EvalRows(x.rows, ColumnValues(y.rows, ClaimPrice), preds, Max(|x.rows|, |preds|));
      (r.Ok? <==> rows.Ok? && MetricsDefined(rows.value))
      && (rows.Ok? && !MetricsDefined(rows.value) ==> r.Raise? && r.exc.kind == "ValueError")
    ensures r.Ok? ==> MetricsDefined(r.value.evalDf.rows)
    ensures r.Ok? ==> |r.value.evalDf.rows| == Max(|x.rows|, |preds|)
    ensures r.Ok? ==> forall i | 0 <= i < |r.value.evalDf.rows| ::
      EvalRow(x.rows, ColumnValues(y.rows, ClaimPrice), preds, i) == Ok(r.value.evalDf.rows[i])
    ensures r.Ok? ==> r.value.expensive == ExpensiveGroup(r.value.evalDf.rows)
    ensures r.Ok? ==> r.value.cheaper == CheaperGroup(r.value.evalDf.rows)
  {
    if ClaimPrice !in y.columns then AttributeError("'DataFrame' object has no attribute 'claim_price'")
    else if |y.rows| != |preds| then ValueError("All arrays must be of the same length")
    else
      var truths := ColumnValues(y.rows, ClaimPrice);
      var rows :- EvalRows(x.rows, truths, preds, Max(|x.rows|, |preds|));
      if rows == [] then ValueError("Found array with 0 sample(s)")
      else if !MetricsDefined(rows) then ValueError("Input contains NaN")
      else
        var cols := x.columns + Filter([YTrue, YPred, DiffColumn, ErrorRate], c => c !in x.columns);
        Ok(Evaluation(Frame(cols, rows), ExpensiveGroup(rows), CheaperGroup(rows)))
  }

  /** With as many predictions as test rows, row `i` of the evaluation frame
      keeps the features of test row `i`, and its residual is the true price
      minus the prediction. */
  lemma EvalAligned(x: Frame, y: Frame, preds: seq<real>, i: int)
    requires Evaluate(x, y, preds).Ok? && |x.rows| == |preds| && 0 <= i < |x.rows|
    requires Cell(y.rows[i], ClaimPrice).Num?
    ensures var row := Evaluate(x, y, preds).value.evalDf.rows[i];
      (forall c | !Appended(c) :: Cell(row, c) == Cell(x.rows[i], c))
      && Cell(row, YTrue) == Cell(y.rows[i], ClaimPrice) && Cell(row, YPred) == Num(preds[i])
      && Cell(row, DiffColumn) == Num(Cell(y.rows[i], ClaimPrice).x - preds[i])
  {
    var truths := ColumnValues(y.rows, ClaimPrice);
    var row := Evaluate(x, y, preds).value.evalDf.rows[i];
    assert EvalRow(x.rows, truths, preds, i) == Ok(row);
    assert truths[i] == Cell(y.rows[i], ClaimPrice);
  }

  /** The outlier groups: both bounds inclusive, no row in both, and a row
      whose residual is under 100000 in size is in neither. */
  lemma OutlierGroups(rows: seq<Row>, row: Row)
    ensures row in ExpensiveGroup(rows) <==> row in rows && Cell(row, DiffColumn).Num? && Cell(row, DiffColumn).x >= Outlier
    ensures row in CheaperGroup(rows) <==> row in rows && Cell(row, DiffColumn).Num? && Cell(row, DiffColumn).x <= -Outlier
    ensures !(row in ExpensiveGroup(rows) && row in CheaperGroup(rows))
    ensures Cell(row, DiffColumn).Num? && -Outlier < Cell(row, DiffColumn).x < Outlier ==>
      row !in ExpensiveGroup(rows) && row !in CheaperGroup(rows)
  {
    FilterSpec(rows, row => AtLeast(row, Outlier));
    FilterSpec(rows, row => AtMost(row, -Outlier));
  }

  /** As written, the group logged as "predicted 100k or more too high" holds
      the rows whose true price exceeds the prediction by 100000 or more:
      the under-predictions. */
  lemma ExpensiveIsUnderPrediction(x: Frame, y: Frame, preds: seq<real>, i: int)
    requires Evaluate(x, y, preds).Ok? && |x.rows| == |preds| && 0 <= i < |x.rows|
    requires Cell(y.rows[i], ClaimPrice).Num?
    ensures var e := Evaluate(x, y, preds).value;
      e.evalDf.rows[i] in e.expensive <==> preds[i] <= Cell(y.rows[i], ClaimPrice).x - Outlier
  {
    EvalAligned(x, y, preds, i);
    var e := Evaluate(x, y, preds).value;
    OutlierGroups(e.evalDf.rows, e.evalDf.rows[i]);
  }

  /** The group the label describes: predictions at least 100000 above the
      true price, which is the `diff <= -100000` selection. */
  function OverPredicted(rows: seq<Row>): seq<Row> {
    CheaperGroup(rows)
  }

  lemma OverPredictedPredictsHigher(x: Frame, y: Frame, preds: seq<real>, i: int)
    requires Evaluate(x, y, preds).Ok? && |x.rows| == |preds| && 0 <= i < |x.rows|
    requires Cell(y.rows[i], ClaimPrice).Num?
    ensures var e := Evaluate(x, y, preds).value;
      e.evalDf.rows[i] in OverPredicted(e.evalDf.rows) <==> preds[i] >= Cell(y.rows[i], ClaimPrice).x + Outlier
  {
    EvalAligned(x, y, preds, i);
    var e := Evaluate(x, y, preds).value;
    OutlierGroups(e.evalDf.rows, e.evalDf.rows[i]);
  }

  // ------------------------------------------------------------ train and evaluate

  /** What a run does outside the returned values, in order. */
  datatype Effect =
    | Trained(xTrain: Frame, yTrain: Frame, xTest: Frame, yTest: Frame)
    | Predicted(x: Frame)
    | DumpedPipeline(path: string)
    | SavedModel(path: string)

  /** The recorded paths; an attribute never set is `None`. */
  datatype Artifact = Artifact(preprocessedFilePath: Option<string>, modelFilePath: Option<string>)

  datatype Run = Run(result: Result<(Evaluation, Artifact)>, disk: ConfigPreprocess.Disk, log: seq<Effect>)

  /** The steps after evaluation: dump the preprocessor when both it and its
      path are given, then save the model when a path is given. */
  function Persist(pipeline: Option<ConfigPreprocess.Preprocessor>, pipelinePath: Option<string>,
                   savePath: Option<string>, disk: ConfigPreprocess.Disk): (r: (Artifact, ConfigPreprocess.Disk, seq<Effect>))
    ensures r.0.preprocessedFilePath.Some? <==> pipeline.Some? && pipelinePath.Some?
    ensures pipeline.Some? && pipelinePath.Some? ==>
      var (file, d) := ConfigPreprocess.DumpPipeline(pipeline.value, disk, pipelinePath.value);
      r.0.preprocessedFilePath == Some(file) && r.1 == d && EndsWith(file, PklExt) && |r.2| >= 1 && r.2[0] == DumpedPipeline(file)
    ensures !(pipeline.Some? && pipelinePath.Some?) ==> r.1 == disk
    ensures r.0.modelFilePath == savePath
    ensures savePath.Some? ==> |r.2| >= 1 && r.2[|r.2| - 1] == SavedModel(savePath.value)
    ensures forall e | e in r.2 :: (e.DumpedPipeline? && pipeline.Some? && pipelinePath.Some?) || (e.SavedModel? && savePath.Some?)
  {
    var (pre, d, dumped) :=
      if pipeline.Some? && pipelinePath.Some? then
        var (file, d) := ConfigPreprocess.DumpPipeline(pipeline.value, disk, pipelinePath.value);
        (Some(file), d, [DumpedPipeline(file)])
      else (None, disk, []);
    var saved := if savePath.Some? then [SavedModel(savePath.value)] else [];
    (Artifact(pre, savePath), d, dumped + saved)
  }

  /** `train_and_evaluate`: train, evaluate on the test split with the
      trained model's predictions `preds`, then persist; an evaluation
      error leaves the disk alone. */
  function TrainAndEvaluate(xTrain: Frame, yTrain: Frame, xTest: Frame, yTest: Frame, preds: seq<real>,
                            pipeline: Option<ConfigPreprocess.Preprocessor>, pipelinePath: Option<string>,
                            savePath: Option<string>, disk: ConfigPreprocess.Disk): (r: Run)
    ensures |r.log| >= 2 && r.log[0] == Trained(xTrain, yTrain, xTest, yTest) && r.log[1] == Predicted(xTest)
    ensures r.result.Raise? <==> Evaluate(xTest, yTest, preds).Raise?
    ensures r.result.Ok? ==> r.result.value.0 == Evaluate(xTest, yTest, preds).value
    ensures r.result.Ok? ==>
      var (art, d, effects) := Persist(pipeline, pipelinePath, savePath, disk);
      r.result.value.1 == art && r.disk == d && r.log[2..] == effects
    ensures r.result.Raise? ==> r.disk == disk && |r.log| == 2
  {
    var log := [Trained(xTrain, yTrain, xTest, yTest), Predicted(xTest)];
    match Evaluate(xTest, yTest, preds)
    case Raise(e) => Run(Raise(e), disk, log)
    case Ok(evaluation) =>
      var (art, d, effects) := Persist(pipeline, pipelinePath, savePath, disk);
      assert (log + effects)[2..] == effects;
      Run(Ok((evaluation, art)), d, log + effects)
  }

  /** A test row without a true price makes the metrics raise, so the run
      dumps and saves nothing. */
  lemma MissingTargetWritesNothing(xTrain: Frame, yTrain: Frame, xTest: Frame, yTest: Frame, preds: seq<real>,
                                   pipeline: Option<ConfigPreprocess.Preprocessor>, pipelinePath: Option<string>,
                                   savePath: Option<string>, disk: ConfigPreprocess.Disk, i: int)
    requires ClaimPrice in yTest.columns && |yTest.rows| == |preds|
    requires 0 <= i < |yTest.rows| && Cell(yTest.rows[i], ClaimPrice) == Null
    ensures var run := TrainAndEvaluate(xTrain, yTrain, xTest, yTest, preds, pipeline, pipelinePath, savePath, disk);
      run.result.Raise? && run.disk == disk && |run.log| == 2
  {
    var truths := ColumnValues(yTest.rows, ClaimPrice);
    var rows := EvalRows(xTest.rows, truths, preds, Max(|xTest.rows|, |preds|));
    if rows.Ok? {
      assert EvalRow(xTest.rows, truths, preds, i) == Ok(rows.value[i]);
      assert truths[i] == Cell(yTest.rows[i], ClaimPrice);
      assert !Cell(rows.value[i], YTrue).Num?;
    }
  }
}

/** `DataRegister.register`: predictions are written as CSV at the path
  normalised to the `.csv` extension, and that path is returned. */
module DataRegister {
  import opened Text
  import opened Frames
  import opened Paths

  type Files = map<string, Frame>

  function Register(files: Files, predictions: Frame, path: string): (r: (string, Files))
    ensures EndsWith(r.0, CsvExt)
    ensures SplitExt(path).1 == CsvExt ==> r.0 == path
    ensures !HasExtension(path) ==> r.0 == path + CsvExt
    ensures r.1 == files[r.0 := predictions]
  {
    var file := WithExt(path, CsvExt);
    (file, files[file := predictions])
  }

  /** Registering at the returned path again writes the same file: the
      normalisation is idempotent and keeps the root. */
  lemma RegisterIdempotent(files: Files, predictions: Frame, path: string)
    requires NamedLastComponent(path)
    ensures var (file, written) := Register(files, predictions, path);
      Register(written, predictions, file) == (file, written)
      && SplitExt(file) == (SplitExt(path).0, CsvExt)
  {
    WithExtIdempotent(path, CsvExt);
    WithExtSplits(path, CsvExt);
    var (file, written) := Register(files, predictions, path);
    assert written[file := predictions] == written;
  }
}
