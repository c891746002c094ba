/** The training pipeline's configurable preprocessor: a configuration names,
  per column, a type, a missing-value strategy and a handling, and is compiled
  into a column transformer with one imputer-then-scaler/encoder pipeline per
  configured column. The sklearn estimators are opaque step tags; fitting and
  transforming are recorded symbolically (which frame was fitted on, which
  frame was transformed), not computed; only the column transformer's
  refusal of a frame it cannot read is modelled. */
module ConfigPreprocess {
  import opened Wrappers
  import opened Text
  import opened Seqs
  import opened Frames
  import opened Paths

  /** One column's settings; an absent key is `None`. */
  datatype Settings = Settings(columnType: Option<string>, missingValue: Option<string>, handling: Option<string>)

  /** The configuration dictionary: `columns` maps column names to settings,
      in insertion order; `None` when the key is absent. */
  datatype Config = Config(columns: Option<seq<(string, Settings)>>)

  const NoConfig := Config(None)

  /** The opaque sklearn estimators a column pipeline is built from. */
  datatype Step =
    | Imputer(strategy: string, fillValue: Option<string>)
    | StandardScaler
    | MinMaxScaler
    | OneHotEncoder(handleUnknown: string, sparseOutput: bool)

  /** A `ColumnTransformer` entry `(name, Pipeline(steps), [column])`. */
  datatype Transformer = Transformer(name: string, steps: seq<Step>, columns: seq<string>)

  datatype ColumnTransformer = ColumnTransformer(transformers: seq<Transformer>, remainder: string)

  /** `settings.get("type", "numeric")`. */
  function TypeOf(s: Settings): string {
    s.columnType.GetOr("numeric")
  }

  predicate Given(s: Option<string>) {
    s.Some? && s.value != ""
  }

  /** The imputer: numeric columns default to the mean, every other type to
      a constant, and non-numeric columns fill with `"unknown"`. */
  function ImputerOf(s: Settings): (r: Step)
    ensures r.Imputer?
    ensures s.missingValue.Some? ==> r.strategy == s.missingValue.value
    ensures s.missingValue.None? && TypeOf(s) == "numeric" ==> r.strategy == "mean"
    ensures s.missingValue.None? && TypeOf(s) != "numeric" ==> r.strategy == "constant"
    ensures r.fillValue.Some? <==> TypeOf(s) != "numeric"
    ensures r.fillValue.Some? ==> r.fillValue.value == "unknown"
  {
    var numeric := TypeOf(s) == "numeric";
    var strategy := s.missingValue.GetOr(if numeric then "mean" else "constant");
    if numeric then Imputer(strategy, None) else Imputer(strategy, Some("unknown"))
  }

  /** The optional second step; an unknown or falsy handling adds none. */
  function HandlingStep(handling: Option<string>): (r: Option<Step>)
    ensures r.Some? <==> handling.Some? && handling.value in {"standard_scale", "minmax_scale", "one_hot"}
    ensures r == Some(StandardScaler) <==> handling == Some("standard_scale")
    ensures r == Some(MinMaxScaler) <==> handling == Some("minmax_scale")
    ensures r == Some(OneHotEncoder("ignore", false)) <==> handling == Some("one_hot")
  {
    if !Given(handling) then None
    else if handling.value == "standard_scale" then Some(StandardScaler)
    else if handling.value == "minmax_scale" then Some(MinMaxScaler)
    else if handling.value == "one_hot" then Some(OneHotEncoder("ignore", false))
    else None
  }

  function ColumnSteps(s: Settings): (r: seq<Step>)
    ensures |r| == 1 || |r| == 2
    ensures r[0] == ImputerOf(s)
    ensures |r| == 2 <==> HandlingStep(s.handling).Some?
    ensures |r| == 2 ==> r[1] == HandlingStep(s.handling).value
  {
    var second := HandlingStep(s.handling);
    [ImputerOf(s)] + (if second.Some? then [second.value] else [])
  }

  function TransformerName(column: string): string {
    "transform_" + column
  }

  /** The per-column transformers, in configuration order. The step list is
      never empty (the imputer is always added), so every configured column
      gets one. */
  function Transformers(columns: seq<(string, Settings)>): (r: seq<Transformer>)
    ensures |r| == |columns|
    ensures forall i | 0 <= i < |columns| ::
      r[i] == Transformer(TransformerName(columns[i].0), ColumnSteps(columns[i].1), [columns[i].0])
  {
    if columns == [] then []
    else
      var (column, settings) := columns[0];
      var steps := ColumnSteps(settings);
      var rest := Transformers(columns[1..]);
      if steps != [] then [Transformer(TransformerName(column), steps, [column])] + rest
      else rest
  }

  function ConfiguredColumns(config: Config): seq<(string, Settings)> {
    config.columns.GetOr([])
  }

  /** `define_pipeline`: columns not in the configuration are dropped. */
  function DefinePipeline(config: Config): (r: ColumnTransformer)
    ensures r.remainder == "drop"
    ensures |r.transformers| == |ConfiguredColumns(config)|
    ensures forall i | 0 <= i < |r.transformers| ::
      var (column, settings) := ConfiguredColumns(config)[i];
      r.transformers[i] == Transformer(TransformerName(column), ColumnSteps(settings), [column])
  {
    ColumnTransformer(Transformers(ConfiguredColumns(config)), "drop")
  }

  predicate Reads(ts: seq<Transformer>, c: string) {
    exists k | 0 <= k < |ts| :: c in ts[k].columns
  }

  predicate Configured(cs: seq<(string, Settings)>, c: string) {
    exists i | 0 <= i < |cs| :: cs[i].0 == c
  }

  /** Every transformer reads exactly one configured column, named after it,
      and the transformed columns are exactly the configured ones. */
  lemma DefinedColumns(config: Config, c: string)
    ensures forall t | t in DefinePipeline(config).transformers ::
      |t.columns| == 1 && t.name == TransformerName(t.columns[0]) && t.steps[0].Imputer?
    ensures Reads(DefinePipeline(config).transformers, c) <==> Configured(ConfiguredColumns(config), c)
  {
    var ts := DefinePipeline(config).transformers;
    var cs := ConfiguredColumns(config);
    if Reads(ts, c) {
      var k :| 0 <= k < |ts| && c in ts[k].columns;
      assert cs[k].0 == c;
    }
    if Configured(cs, c) {
      var i :| 0 <= i < |cs| && cs[i].0 == c;
      assert c in ts[i].columns;
    }
  }

  /** The unconfigured default: an empty transformer that drops everything. */
  lemma EmptyConfigDropsAll()
    ensures DefinePipeline(NoConfig) == ColumnTransformer([], "drop")
    ensures DefinePipeline(Config(Some([]))) == ColumnTransformer([], "drop")
  {
  }

  /** A one-hot column is imputed with the constant `"unknown"` unless a
      strategy is configured, and unseen categories are ignored. */
  lemma OneHotColumn(column: string, missing: Option<string>)
    ensures var ct := DefinePipeline(Config(Some([(column, Settings(Some("categorical"), missing, Some("one_hot")))])));
      ct.transformers == [Transformer(TransformerName(column),
                                      [Imputer(missing.GetOr("constant"), Some("unknown")), OneHotEncoder("ignore", false)],
                                      [column])]
  {
    var s := Settings(Some("categorical"), missing, Some("one_hot"));
    assert ColumnSteps(s) == [Imputer(missing.GetOr("constant"), Some("unknown")), OneHotEncoder("ignore", false)];
  }

  // ------------------------------------------------------------ the object

  /** A transformer and the frame it was last fitted on, if any. */
  datatype Fitted = Fitted(spec: ColumnTransformer, fittedOn: Option<Frame>)

  /** sklearn's output for `input`, as a function of the specification and
      the fitting frame. */
  datatype Encoded = Encoded(spec: ColumnTransformer, fittedOn: Frame, input: Frame)

  /** `DataPreprocessPipeline`: the transformer (none until defined or
      loaded) and the configuration. */
  datatype Preprocessor = Preprocessor(pipeline: Option<Fitted>, config: Config)

  /** `__init__(config)`: `config or {}`. */
  function New(config: Option<Config>): (p: Preprocessor)
    ensures p.pipeline.None?
    ensures config.Some? ==> p.config == config.value
    ensures config.None? ==> DefinePipeline(p.config).transformers == []
  {
    Preprocessor(None, config.GetOr(NoConfig))
  }

  /** The transformer `fit` works with: the existing one, or the one the
      configuration defines. */
  function SpecOf(p: Preprocessor): ColumnTransformer {
    if p.pipeline.Some? then p.pipeline.value.spec else DefinePipeline(p.config)
  }

  /** Every column a transformer reads is a column of `x`. */
  predicate Covers(spec: ColumnTransformer, x: Frame)
    ensures Covers(spec, x) <==> forall c | Reads(spec.transformers, c) :: c in x.columns
  {
    forall k, j | 0 <= k < |spec.transformers| && 0 <= j < |spec.transformers[k].columns| ::
      spec.transformers[k].columns[j] in x.columns
  }

  /** What `ColumnTransformer.fit` and `transform` accept: every column a
      transformer reads is a column of the frame, and a frame that some
      estimator sees has at least one row. */
  predicate Accepts(spec: ColumnTransformer, x: Frame) {
    Covers(spec, x) && (spec.transformers == [] || |x.rows| > 0)
  }

  /** sklearn's refusal of a frame the transformer does not accept. */
  function Refuse<T>(spec: ColumnTransformer, x: Frame): Result<T> {
    if !Covers(spec, x) then ValueError("A given column is not a column of the dataframe")
    else ValueError("Found array with 0 sample(s)")
  }

  /** The strategies `SimpleImputer` accepts. */
  const ImputerStrategies := {"mean", "median", "most_frequent", "constant"}

  /** Every imputer of the transformer has a strategy `SimpleImputer` accepts. */
  predicate ValidImputers(t: Transformer) {
    forall k | 0 <= k < |t.steps| && t.steps[k].Imputer? :: t.steps[k].strategy in ImputerStrategies
  }

  /** What fitting accepts: the frame is one the transformer accepts, and
      every imputer's strategy is valid. Strategies are checked only when an
      imputer is fitted, so a transform never re-checks them. */
  predicate Fits(spec: ColumnTransformer, x: Frame) {
    Accepts(spec, x) && forall k | 0 <= k < |spec.transformers| :: ValidImputers(spec.transformers[k])
  }

  /** The strategy check's refusal; sklearn's `InvalidParameterError` is a
      subclass of `ValueError`. */
  function BadStrategy<T>(): Result<T> {
    ValueError(StrategyMessage)
  }

  const StrategyMessage := "The 'strategy' parameter of SimpleImputer must be a str among {'mean', 'median', 'most_frequent', 'constant'}"

  /** The refusal of a fit, in sklearn's order: the column selection first,
      then the transformers one by one, each checking its imputer's
      strategy before the rows it is given. */
  function RefuseFit<T>(spec: ColumnTransformer, x: Frame): (r: Result<T>)
    ensures r.Raise? && r.exc.kind == "ValueError"
    ensures !Covers(spec, x) ==> r == Refuse(spec, x)
  {
    if !Covers(spec, x) then Refuse(spec, x)
    else if spec.transformers != [] && !ValidImputers(spec.transformers[0]) then BadStrategy()
    else if spec.transformers != [] && |x.rows| == 0 then Refuse(spec, x)
    else BadStrategy()
  }

  /** `fit(x)`: defines the transformer only when there is none, then fits it
      on `x`, raising `ValueError` for a frame it does not accept or an
      imputer strategy `SimpleImputer` refuses; the configuration is
      untouched. */
  function Fit(p: Preprocessor, x: Frame): (r: Result<Preprocessor>)
    ensures r.Ok? <==> Fits(SpecOf(p), x)
    ensures r.Raise? ==> r.exc.kind == "ValueError"
    ensures Accepts(SpecOf(p), x) && (exists k | 0 <= k < |SpecOf(p).transformers| :: !ValidImputers(SpecOf(p).transformers[k])) ==> r == BadStrategy()
    ensures r.Ok? ==> r.value.config == p.config && r.value.pipeline == Some(Fitted(SpecOf(p), Some(x)))
    ensures r.Ok? && p.pipeline.Some? ==> r.value.pipeline.value.spec == p.pipeline.value.spec
    ensures r.Ok? && p.pipeline.None? ==> r.value.pipeline.value.spec == DefinePipeline(p.config)
  {
    var spec := SpecOf(p);
    if !Fits(spec, x) then RefuseFit(spec, x)
    else Ok(p.(pipeline := Some(Fitted(spec, Some(x)))))
  }

  const NotTrained := "파이프라인이 학습되지 않았습니다."

  function NotFitted<T>(): Result<T> {
    Raise(Exc("NotFittedError", "This ColumnTransformer instance is not fitted yet."))
  }

  /** `transform(x)`: `ValueError` without a transformer; sklearn refuses a
      transformer that was loaded unfitted, and a frame lacking a column the
      transformer reads or with no rows to give an estimator. */
  function Transform(p: Preprocessor, x: Frame): (r: Result<Encoded>)
    ensures p.pipeline.None? ==> r == ValueError(NotTrained)
    ensures p.pipeline.Some? && p.pipeline.value.fittedOn.None? ==> r.Raise? && r.exc.kind == "NotFittedError"
    ensures r.Ok? <==> p.pipeline.Some? && p.pipeline.value.fittedOn.Some? && Accepts(p.pipeline.value.spec, x)
    ensures p.pipeline.Some? && p.pipeline.value.fittedOn.Some? && !Accepts(p.pipeline.value.spec, x) ==> r.Raise? && r.exc.kind == "ValueError"
    ensures r.Ok? ==> r.value == Encoded(p.pipeline.value.spec, p.pipeline.value.fittedOn.value, x)
  {
    if p.pipeline.None? then ValueError(NotTrained)
    else if p.pipeline.value.fittedOn.None? then NotFitted()
    else if !Accepts(p.pipeline.value.spec, x) then Refuse(p.pipeline.value.spec, x)
    else Ok(Encoded(p.pipeline.value.spec, p.pipeline.value.fittedOn.value, x))
  }

  /** `fit_transform(x)` is `fit(x).transform(x)`: the fitted object and the
      encoding, or the first exception. */
  function FitTransform(p: Preprocessor, x: Frame): (r: Result<(Preprocessor, Encoded)>)
    ensures r.Raise? <==> Fit(p, x).Raise? || Transform(Fit(p, x).value, x).Raise?
    ensures r.Ok? ==> Fit(p, x) == Ok(r.value.0) && Transform(r.value.0, x) == Ok(r.value.1)
    ensures r.Ok? <==> Fits(SpecOf(p), x)
    ensures r.Raise? ==> r.exc.kind == "ValueError"
    ensures r.Ok? ==> r.value.1 == Encoded(SpecOf(p), x, x)
  {
    var q :- Fit(p, x);
    match Transform(q, x)
    case Ok(e) => Ok((q, e))
    case Raise(exc) => Raise(exc)
  }

  /** After `fit_transform(x)`, a later `transform(y)` encodes `y` with the
      fitting on `x`, or refuses `y` as `fit` would have. */
  lemma FitTransformThenTransform(p: Preprocessor, x: Frame, y: Frame)
    ensures FitTransform(p, x).Ok? ==>
      var (q, e) := FitTransform(p, x).value;
      e == Encoded(SpecOf(p), x, x)
      && Transform(q, y) == (if Accepts(SpecOf(p), y) then Ok(Encoded(SpecOf(p), x, y)) else Refuse(SpecOf(p), y))
  {
  }

  /** A first fit raises exactly when a configured column is not a column of
      the frame, there is a configured column and no row, or a column is
      configured with a missing-value strategy `SimpleImputer` refuses (the
      defaults, mean and constant, are accepted). */
  lemma FirstFitNeedsConfiguredColumns(p: Preprocessor, x: Frame)
    requires p.pipeline.None?
    ensures Fit(p, x).Raise? <==>
      (exists i | 0 <= i < |ConfiguredColumns(p.config)| :: ConfiguredColumns(p.config)[i].0 !in x.columns)
      || (ConfiguredColumns(p.config) != [] && |x.rows| == 0)
      || (exists i | 0 <= i < |ConfiguredColumns(p.config)| :: !ValidStrategy(ConfiguredColumns(p.config)[i].1))
  {
    var spec := DefinePipeline(p.config);
    var cs := ConfiguredColumns(p.config);
    forall c ensures Reads(spec.transformers, c) <==> Configured(cs, c) {
      DefinedColumns(p.config, c);
    }
    forall k | 0 <= k < |spec.transformers| ensures ValidImputers(spec.transformers[k]) <==> ValidStrategy(cs[k].1) {
      ValidColumnSteps(cs[k].1);
    }
    if exists i | 0 <= i < |cs| :: cs[i].0 !in x.columns {
      var i :| 0 <= i < |cs| && cs[i].0 !in x.columns;
      assert Configured(cs, cs[i].0);
    }
    if exists c | Reads(spec.transformers, c) :: c !in x.columns {
      var c :| Reads(spec.transformers, c) && c !in x.columns;
      assert Configured(cs, c);
    }
  }

  /** A column's settings give a strategy `SimpleImputer` accepts: one that
      is configured is among its four, and an unconfigured one defaults to
      mean or constant. */
  predicate ValidStrategy(s: Settings) {
    s.missingValue.Some? ==> s.missingValue.value in ImputerStrategies
  }

  /** A column's steps pass the strategy check exactly when its settings
      give a valid strategy: only the first step is an imputer. */
  lemma ValidColumnSteps(s: Settings)
    ensures ValidImputers(Transformer("", ColumnSteps(s), [])) <==> ValidStrategy(s)
  {
    var steps := ColumnSteps(s);
    assert steps[0] == ImputerOf(s);
    if |steps| == 2 {
      assert !steps[1].Imputer?;
    }
  }

  /** After a fit the transformer no longer depends on the configuration:
      it is read once, at the first fit, and a later fit keeps it. */
  lemma RefitKeepsSpec(p: Preprocessor, x: Frame, c: Config)
    requires Fit(p, x).Ok?
    ensures SpecOf(Fit(p, x).value) == SpecOf(p)
    ensures SpecOf(Fit(p, x).value.(config := c)) == SpecOf(p)
  {
  }

  /** `get_feature_names()`: `ValueError` without a transformer. Names are
      `<transformer>__<column>`, and a one-hot column yields one name per
      learned category; `categories` stands for what the encoder learned
      from the fitting frame. */
  function FeatureNames(p: Preprocessor, categories: (Frame, string) -> seq<string>): (r: Result<seq<string>>)
    ensures p.pipeline.None? ==> r == ValueError(NotTrained)
    ensures r.Ok? <==> p.pipeline.Some? && p.pipeline.value.fittedOn.Some?
    ensures r.Ok? ==> r.value == NamesOf(p.pipeline.value.spec.transformers, c => categories(p.pipeline.value.fittedOn.value, c))
  {
    if p.pipeline.None? then ValueError(NotTrained)
    else if p.pipeline.value.fittedOn.None? then NotFitted()
    else
      var on := p.pipeline.value.fittedOn.value;
      Ok(NamesOf(p.pipeline.value.spec.transformers, c => categories(on, c)))
  }

  predicate Encodes(t: Transformer) {
    exists k | 0 <= k < |t.steps| :: t.steps[k].OneHotEncoder?
  }

  function TransformerNames(t: Transformer, cats: string -> seq<string>): (r: seq<string>)
    requires |t.columns| == 1
  {
    var c := t.columns[0];
    if Encodes(t) then MapSeq(cats(c), (v: string) => t.name + "__" + c + "_" + v)
    else [t.name + "__" + c]
  }

  function NamesOf(ts: seq<Transformer>, cats: string -> seq<string>): seq<string> {
    if ts == [] then []
    else (if |ts[0].columns| == 1 then TransformerNames(ts[0], cats) else []) + NamesOf(ts[1..], cats)
  }

  /** The width of a defined transformer's output: one feature per scaled or
      imputed column and one per learned category of a one-hot column. */
  function Width(ts: seq<Transformer>, cats: string -> seq<string>): nat {
    if ts == [] then 0
    else (if |ts[0].columns| != 1 then 0 else if Encodes(ts[0]) then |cats(ts[0].columns[0])| else 1) + Width(ts[1..], cats)
  }

  /** Every feature name is prefixed by the transformer that produced it, and
      the number of names is the output width. */
  lemma {:induction false} NamesOfSpec(ts: seq<Transformer>, cats: string -> seq<string>)
    ensures |NamesOf(ts, cats)| == Width(ts, cats)
    ensures forall n | n in NamesOf(ts, cats) :: exists t | t in ts :: StartsWith(n, t.name + "__")
  {
    if ts != [] {
      NamesOfSpec(ts[1..], cats);
      var t := ts[0];
      if |t.columns| == 1 {
        var own := TransformerNames(t, cats);
        var c := t.columns[0];
        forall n | n in own ensures StartsWith(n, t.name + "__") {
          if Encodes(t) {
            var k :| 0 <= k < |own| && own[k] == n;
            assert n == t.name + "__" + (c + "_" + cats(c)[k]);
          } else {
            assert n == t.name + "__" + c;
          }
        }
      }
      forall n | n in NamesOf(ts, cats) ensures exists t | t in ts :: StartsWith(n, t.name + "__") {
        if n !in NamesOf(ts[1..], cats) {
          assert StartsWith(n, ts[0].name + "__");
        } else {
          var u :| u in ts[1..] && StartsWith(n, u.name + "__");
          assert u in ts;
        }
      }
    }
  }

  // ------------------------------------------------------------ persistence

  /** The dictionary `{"pipeline": …, "config": …}` written by `dump`. */
  datatype Saved = Saved(pipeline: Option<Fitted>, config: Config)

  type Disk = map<string, Saved>

  /** `dump_pipeline(file_path)`: transformer and configuration are written
      together at the `.pkl` normalised path, which is returned. */
  function DumpPipeline(p: Preprocessor, disk: Disk, path: string): (r: (string, Disk))
    ensures EndsWith(r.0, PklExt)
    ensures SplitExt(path).1 == PklExt ==> r.0 == path
    ensures r.1 == disk[r.0 := Saved(p.pipeline, p.config)]
  {
    var file := WithExt(path, PklExt);
    (file, disk[file := Saved(p.pipeline, p.config)])
  }

  /** `load_pipeline(file_path)`: both fields are replaced; a missing file
      raises. */
  function LoadPipeline(p: Preprocessor, disk: Disk, path: string): (r: Result<Preprocessor>)
    ensures r.Ok? <==> path in disk
    ensures r.Ok? ==> r.value.pipeline == disk[path].pipeline && r.value.config == disk[path].config
  {
    if path in disk then Ok(Preprocessor(disk[path].pipeline, disk[path].config))
    else Raise(Exc("FileNotFoundError", "No such file or directory: '" + path + "'"))
  }

  /** Dump-then-load from the returned path restores the whole state, into
      any object. */
  lemma DumpLoadRoundTrip(p: Preprocessor, other: Preprocessor, disk: Disk, path: string)
    ensures var (file, d) := DumpPipeline(p, disk, path); LoadPipeline(other, d, file) == Ok(p)
  {
  }

  // ------------------------------------------------------------ splitting

  const Price := "price"

  datatype XY = XY(x: Encoded, y: Frame)

  datatype Split = Split(train: XY, test: XY, preprocessor: Preprocessor)

  /** `split_train_test`: `price` becomes the target; the shuffled split is
      the mask `isTest` (sklearn's choice, an input here). The preprocessor
      is fitted on the training rows only and merely applied to the test
      rows; any exception on the way propagates. */
  function SplitTrainTest(raw: Frame, isTest: seq<bool>, p: Preprocessor): (r: Result<Split>)
    requires |isTest| == |raw.rows|
    ensures Price !in raw.columns ==> r.Raise? && r.exc.kind == "KeyError"
    ensures Price in raw.columns && CastColumn(SelectColumns(raw, [Price]).value, Price).Raise? ==> r.Raise?
    ensures Price in raw.columns && CastColumn(SelectColumns(raw, [Price]).value, Price).Ok? ==>
      (r.Ok? <==> Fits(SpecOf(p), TrainRows(Drop(raw, Price).value, isTest))
                  && Accepts(SpecOf(p), TestRows(Drop(raw, Price).value, isTest)))
    ensures r.Ok? ==> Fit(p, TrainRows(Drop(raw, Price).value, isTest)) == Ok(r.value.preprocessor)
    ensures r.Ok? ==> r.value.train.x == Encoded(SpecOf(p), TrainRows(Drop(raw, Price).value, isTest), TrainRows(Drop(raw, Price).value, isTest))
    ensures r.Ok? ==> r.value.test.x == Encoded(SpecOf(p), TrainRows(Drop(raw, Price).value, isTest), TestRows(Drop(raw, Price).value, isTest))
    ensures r.Ok? ==> r.value.train.y.columns == [Price] && r.value.test.y.columns == [Price]
    ensures r.Ok? ==> |r.value.train.y.rows| == |r.value.train.x.input.rows|
    ensures r.Ok? ==> |r.value.test.y.rows| == |r.value.test.x.input.rows|
  {
    var x :- Drop(raw, Price);
    var y :- CastColumn(SelectColumns(raw, [Price]).value, Price);
    var xTrain := TrainRows(x, isTest);
    var xTest := TestRows(x, isTest);
    FitTransformThenTransform(p, xTrain, xTest);
    var (fitted, trainX) :- FitTransform(p, xTrain);
    var testX :- Transform(fitted, xTest);
    KeepSameLength(y.rows, x.rows, isTest);
    KeepSameLength(y.rows, x.rows, Negate(isTest));
    Ok(Split(XY(trainX, TrainRows(y, isTest)), XY(testX, TestRows(y, isTest)), fitted))
  }

  /** The same mask keeps the same number of rows of two equally long frames. */
  lemma {:induction false} KeepSameLength(a: seq<Row>, b: seq<Row>, mask: seq<bool>)
    requires |a| == |b| == |mask|
    ensures |Keep(a, mask)| == |Keep(b, mask)|
  {
    if a != [] {
      KeepSameLength(a[1..], b[1..], mask[1..]);
    }
  }

  function Negate(mask: seq<bool>): (r: seq<bool>)
    ensures |r| == |mask| && forall i | 0 <= i < |mask| :: r[i] == !mask[i]
  {
    seq(|mask|, i requires 0 <= i < |mask| => !mask[i])
  }

  function TrainRows(f: Frame, isTest: seq<bool>): Frame
    requires |isTest| == |f.rows|
  {
    f.(rows := Keep(f.rows, Negate(isTest)))
  }

  function TestRows(f: Frame, isTest: seq<bool>): Frame
    requires |isTest| == |f.rows|
  {
    f.(rows := Keep(f.rows, isTest))
  }
}
