/** The hand-rolled preprocessing pipeline of the training code: numeric
  columns are imputed and scaled, other columns imputed and label- or one-hot
  encoded against the values seen while fitting. The library numerics it
  calls (a column's mean, median or mode, a fitted scaler's transform, `str`
  of a non-string value) are the `Library` input. */
module EncodingPipeline {
  import opened Wrappers
  import opened Seqs
  import opened Frames

  /** A `numeric` or `categorical` sub-map; an absent key is `None`. */
  datatype Group = Group(handling: Option<string>, missingValue: Option<string>)

  /** The configuration's two sub-maps; `None` when the key is absent. */
  datatype Config = Config(numeric: Option<Group>, categorical: Option<Group>)

  const DefaultConfig := Config(Some(Group(Some("standard_scale"), Some("mean"))),
                                Some(Group(Some("one_hot"), Some("mode"))))

  /** `self.config.update(config)`: a key given by the user replaces the
      default sub-map as a whole; nothing is merged inside it. */
  function MergeConfig(user: Option<Config>): (r: Config)
    ensures user.Some? && user.value.numeric.Some? ==> r.numeric == user.value.numeric
    ensures user.Some? && user.value.categorical.Some? ==> r.categorical == user.value.categorical
    ensures user.None? || user.value.numeric.None? ==> r.numeric == DefaultConfig.numeric
    ensures user.None? || user.value.categorical.None? ==> r.categorical == DefaultConfig.categorical
  {
    match user
    case None => DefaultConfig
    case Some(u) =>
      Config(if u.numeric.Some? then u.numeric else DefaultConfig.numeric,
             if u.categorical.Some? then u.categorical else DefaultConfig.categorical)
  }

  /** A user sub-map without `missing_value` or `handling` does not inherit
      the default's: the key reads as `"none"`. Without a user sub-map the
      defaults apply: standard scaling with the mean for numbers, one-hot
      with the mode for categories. */
  lemma ShallowMerge(user: Option<Config>)
    ensures user.Some? && user.value.numeric.Some? && user.value.numeric.value.missingValue.None? ==>
      Strategy(MergeConfig(user).numeric) == "none"
    ensures user.Some? && user.value.numeric.Some? && user.value.numeric.value.handling.None? ==>
      Handling(MergeConfig(user).numeric) == "none"
    ensures user.Some? && user.value.categorical.Some? && user.value.categorical.value.missingValue.None? ==>
      Strategy(MergeConfig(user).categorical) == "none"
    ensures user.Some? && user.value.categorical.Some? && user.value.categorical.value.handling.None? ==>
      Handling(MergeConfig(user).categorical) == "none"
    ensures user.None? || user.value.numeric.None? ==>
      Strategy(MergeConfig(user).numeric) == "mean" && Handling(MergeConfig(user).numeric) == "standard_scale"
    ensures user.None? || user.value.categorical.None? ==>
      Strategy(MergeConfig(user).categorical) == "mode" && Handling(MergeConfig(user).categorical) == "one_hot"
  {
  }

  /** `config.get(group, {}).get("handling", "none")`. */
  function Handling(g: Option<Group>): string {
    if g.Some? then g.value.handling.GetOr("none") else "none"
  }

  /** `config.get(group, {}).get("missing_value", "none")`. */
  function Strategy(g: Option<Group>): string {
    if g.Some? then g.value.missingValue.GetOr("none") else "none"
  }

  /** A fitted scaler: its kind and the values it was fitted on. */
  datatype Scaler = Scaler(kind: string, fittedOn: seq<Value>)

  /** The library behaviour the pipeline delegates to. */
  datatype Library = Library(statistic: (string, seq<Value>) -> Value, repr: Value -> string, scale: (Scaler, Value) -> Value)

  /** `f"{col}_{val}"`: strings print as themselves. */
  function OneHotName(lib: Library, col: string, v: Value): (r: string)
    ensures |r| > |col| && r[..|col|] == col
  {
    col + "_" + (if v.Str? then v.s else lib.repr(v))
  }

  function OneHotNames(lib: Library, col: string, vals: seq<Value>): (r: seq<string>)
    ensures |r| == |vals| && col !in r
    ensures forall k | 0 <= k < |vals| :: r[k] == OneHotName(lib, col, vals[k])
  {
    MapSeq(vals, v => OneHotName(lib, col, v))
  }

  /** The fitted state. `mappings[col]` holds the keys of the fitted mapping
      in insertion order: label `k` for the `k`-th key, or one-hot column
      `OneHotName(col, key)`; which one is fixed by the configuration. */
  datatype Pipeline = Pipeline(config: Config, numericColumns: seq<string>, categoricalColumns: seq<string>,
                               scalers: map<string, Scaler>, mappings: map<string, seq<Value>>)

  /** `__init__(config)`: nothing is fitted yet. */
  function New(config: Option<Config>): (p: Pipeline)
    ensures p.config == MergeConfig(config)
    ensures p.numericColumns == [] && p.categoricalColumns == [] && p.scalers == map[] && p.mappings == map[]
  {
    Pipeline(MergeConfig(config), [], [], map[], map[])
  }

  // ------------------------------------------------------------ frame helpers

  /** `df[col] = df[col].map(g)`, applied to a column that exists. */
  function MapColumn(f: Frame, col: string, g: Value -> Value): (r: Frame)
    ensures r.columns == f.columns && |r.rows| == |f.rows|
    ensures forall i | 0 <= i < |f.rows| :: Cell(r.rows[i], col) == g(Cell(f.rows[i], col))
    ensures forall i, c | 0 <= i < |f.rows| && c != col :: Cell(r.rows[i], c) == Cell(f.rows[i], c)
  {
    Frame(f.columns, seq(|f.rows|, i requires 0 <= i < |f.rows| => f.rows[i][col := g(Cell(f.rows[i], col))]))
  }

  /** `fillna(x)`: missing values become `x`. */
  function FillNa(v: Value, x: Value): (r: Value)
    ensures r != Null || x == Null
    ensures v != Null ==> r == v
  {
    if v == Null then x else v
  }

  // ------------------------------------------------------------ fit

  /** A column pandas types as numeric: every value is a number or missing. */
  predicate NumericColumn(f: Frame, col: string) {
    forall i | 0 <= i < |f.rows| :: Cell(f.rows[i], col).Num? || Cell(f.rows[i], col).Null?
  }

  /** `list.remove(x)`: the first occurrence goes. */
  function RemoveFirst(s: seq<string>, x: string): (r: seq<string>)
    ensures x !in s ==> r == s
    ensures x in s ==> r == s[..FirstIndex(s, x)] + s[FirstIndex(s, x) + 1..]
  {
    if s == [] then []
    else if s[0] == x then s[1..]
    else
      var rest := RemoveFirst(s[1..], x);
      if x in s then
        RemoveFirstStep(s, x, rest);
        [s[0]] + rest
      else [s[0]] + rest
  }

  /** The step of `RemoveFirst` past a leading element other than `x`. */
  lemma RemoveFirstStep(s: seq<string>, x: string, rest: seq<string>)
    requires x in s && s[0] != x
    requires rest == s[1..][..FirstIndex(s[1..], x)] + s[1..][FirstIndex(s[1..], x) + 1..]
    ensures [s[0]] + rest == s[..FirstIndex(s, x)] + s[FirstIndex(s, x) + 1..]
  {
    var j := FirstIndex(s[1..], x);
    assert FirstIndex(s, x) == j + 1;
    assert s[..j + 1] == [s[0]] + s[1..][..j];
    assert s[j + 2..] == s[1..][j + 1..];
  }

  /** `select_dtypes` include / exclude numbers, then the target is removed
      from both lists when it is given. */
  function Partition(f: Frame, target: Option<string>): (r: (seq<string>, seq<string>))
  {
    var numeric := Filter(f.columns, c => NumericColumn(f, c));
    var other := Filter(f.columns, c => !NumericColumn(f, c));
    if target.Some? && target.value != "" then (RemoveFirst(numeric, target.value), RemoveFirst(other, target.value))
    else (numeric, other)
  }

  lemma {:induction false} RemoveFirstDistinct(s: seq<string>, x: string)
    requires NoDuplicates(s)
    ensures forall c :: c in RemoveFirst(s, x) <==> c in s && c != x
  {
    if s != [] {
      if s[0] != x {
        RemoveFirstDistinct(s[1..], x);
      } else {
        assert forall j | 1 <= j < |s| :: s[j] != s[0];
      }
    }
  }

  lemma {:induction false} FilterDistinct<T>(s: seq<T>, p: T -> bool)
    requires NoDuplicates(s)
    ensures NoDuplicates(Filter(s, p))
  {
    if s != [] {
      FilterDistinct(s[1..], p);
      FilterSpec(s[1..], p);
      assert forall j | 1 <= j < |s| :: s[j] != s[0];
      assert s[0] !in s[1..];
    }
  }

  /** Over distinct column names the partition is exact: the numeric and
      the other columns are disjoint, together they are every column but
      the target, and the numeric ones are those pandas types as numbers. */
  lemma PartitionSpec(f: Frame, target: Option<string>, c: string)
    requires NoDuplicates(f.columns)
    ensures var (numeric, other) := Partition(f, target);
      var dropped := target.Some? && target.value != "" && c == target.value;
      (c in numeric <==> c in f.columns && NumericColumn(f, c) && !dropped)
      && (c in other <==> c in f.columns && !NumericColumn(f, c) && !dropped)
  {
    var numeric := Filter(f.columns, c => NumericColumn(f, c));
    var other := Filter(f.columns, c => !NumericColumn(f, c));
    FilterSpec(f.columns, c => NumericColumn(f, c));
    FilterSpec(f.columns, c => !NumericColumn(f, c));
    if target.Some? && target.value != "" {
      FilterDistinct(f.columns, c => NumericColumn(f, c));
      FilterDistinct(f.columns, c => !NumericColumn(f, c));
      RemoveFirstDistinct(numeric, target.value);
      RemoveFirstDistinct(other, target.value);
    }
  }

  /** The value `fillna` uses while fitting, if the strategy fills at all. */
  function FitFill(lib: Library, strategy: string, vals: seq<Value>, numeric: bool): Option<Value> {
    if numeric then
      if strategy == "mean" || strategy == "median" then Some(lib.statistic(strategy, vals))
      else if strategy == "zero" then Some(Num(0.0))
      else None
    else
      if strategy == "mode" then Some(lib.statistic(strategy, vals))
      else if strategy == "unknown" then Some(Str("unknown"))
      else None
  }

  /** A cell after imputing with `fill`, when there is one. */
  function Imputed(v: Value, fill: Option<Value>): Value {
    if fill.Some? then FillNa(v, fill.value) else v
  }

  /** Fills `col` in place with the strategy's value, when there is one. */
  function Fill(f: Frame, col: string, fill: Option<Value>): (r: Frame)
    ensures r.columns == f.columns && |r.rows| == |f.rows|
    ensures forall i | 0 <= i < |f.rows| :: Cell(r.rows[i], col) == Imputed(Cell(f.rows[i], col), fill)
    ensures forall i, c | 0 <= i < |f.rows| && c != col :: Cell(r.rows[i], c) == Cell(f.rows[i], c)
  {
    if fill.Some? then MapColumn(f, col, v => FillNa(v, fill.value)) else f
  }

  /** The handlings for which `_fit_numeric` fits a scaler. */
  predicate Scales(handling: string) {
    handling == "standard_scale" || handling == "minmax_scale"
  }

  /** A scaler's refusal, at `fit` or `transform`, of a column without rows. */
  function NoSamples<T>(): Result<T> {
    ValueError("Found array with 0 sample(s) (shape=(0, 1)) while a minimum of 1 is required.")
  }

  /** `mode()[0]` of a column without a present value: the mode is empty,
      and the label `0` is not in its index. */
  function EmptyMode<T>(): Result<T> {
    Raise(Exc("KeyError", "0"))
  }

  /** No value of the column is present; true of a column without rows. */
  predicate AllMissing(vals: seq<Value>) {
    forall i | 0 <= i < |vals| :: vals[i] == Null
  }

  /** One numeric column of `_fit_numeric`: impute, then fit a scaler on the
      imputed column when the handling scales; the scaler refuses a column
      without rows. */
  function FitNumericColumn(p: Pipeline, f: Frame, col: string, lib: Library): (r: Result<(Pipeline, Frame)>)
    ensures r.Raise? <==> Scales(Handling(p.config.numeric)) && |f.rows| == 0
    ensures r.Raise? ==> r == NoSamples()
    ensures r.Ok? ==> r.value.1 == Fill(f, col, FitFill(lib, Strategy(p.config.numeric), ColumnValues(f.rows, col), true))
    ensures r.Ok? && Scales(Handling(p.config.numeric)) ==>
      r.value.0 == p.(scalers := p.scalers[col := Scaler(Handling(p.config.numeric), ColumnValues(r.value.1.rows, col))])
    ensures r.Ok? && !Scales(Handling(p.config.numeric)) ==> r.value.0 == p
  {
    var g := Fill(f, col, FitFill(lib, Strategy(p.config.numeric), ColumnValues(f.rows, col), true));
    var handling := Handling(p.config.numeric);
    if Scales(handling) then
      if |g.rows| == 0 then NoSamples()
      else Ok((p.(scalers := p.scalers[col := Scaler(handling, ColumnValues(g.rows, col))]), g))
    else Ok((p, g))
  }

  /** One column of `_fit_categorical`: impute, then record the column's
      distinct values, in order of first occurrence, when it is encoded.
      The `"mode"` strategy raises for a column with no present value. */
  function FitCategoricalColumn(p: Pipeline, f: Frame, col: string, lib: Library): (r: Result<(Pipeline, Frame)>)
    ensures r.Raise? <==> Strategy(p.config.categorical) == "mode" && AllMissing(ColumnValues(f.rows, col))
    ensures r.Raise? ==> r == EmptyMode()
    ensures r.Ok? ==> r.value.1 == Fill(f, col, FitFill(lib, Strategy(p.config.categorical), ColumnValues(f.rows, col), false))
    ensures r.Ok? && Handling(p.config.categorical) in {"label", "one_hot"} ==>
      r.value.0 == p.(mappings := p.mappings[col := Distinct(ColumnValues(r.value.1.rows, col))])
    ensures r.Ok? && Handling(p.config.categorical) !in {"label", "one_hot"} ==> r.value.0 == p
  {
    var vals := ColumnValues(f.rows, col);
    if Strategy(p.config.categorical) == "mode" && AllMissing(vals) then EmptyMode()
    else
      var g := Fill(f, col, FitFill(lib, Strategy(p.config.categorical), vals, false));
      var handling := Handling(p.config.categorical);
      if handling == "label" || handling == "one_hot" then
        Ok((p.(mappings := p.mappings[col := Distinct(ColumnValues(g.rows, col))]), g))
      else Ok((p, g))
  }

  /** `_fit_numeric` over `cols`: raises exactly when a scaler is fitted on a
      frame without rows; other columns are left alone. */
  function FitNumeric(p: Pipeline, f: Frame, cols: seq<string>, lib: Library): (r: Result<(Pipeline, Frame)>)
    ensures r.Raise? <==> cols != [] && Scales(Handling(p.config.numeric)) && |f.rows| == 0
    ensures r.Raise? ==> r == NoSamples()
    ensures r.Ok? ==> r.value.0.config == p.config && r.value.0.mappings == p.mappings
    ensures r.Ok? ==> r.value.0.numericColumns == p.numericColumns && r.value.0.categoricalColumns == p.categoricalColumns
    ensures r.Ok? ==> r.value.1.columns == f.columns && |r.value.1.rows| == |f.rows|
    ensures r.Ok? ==> forall i, c | 0 <= i < |f.rows| && c !in cols :: Cell(r.value.1.rows[i], c) == Cell(f.rows[i], c)
    decreases |cols|
  {
    if cols == [] then Ok((p, f))
    else
      var qg :- FitNumericColumn(p, f, cols[0], lib);
      assert forall c :: c in cols[1..] ==> c in cols;
      FitNumeric(qg.0, qg.1, cols[1..], lib)
  }

  /** `_fit_categorical` over `cols`: under `"mode"` it raises exactly when
      one of the columns has no present value, whatever the order; no other
      strategy raises. */
  function FitCategorical(p: Pipeline, f: Frame, cols: seq<string>, lib: Library): (r: Result<(Pipeline, Frame)>)
    ensures r.Raise? <==> Strategy(p.config.categorical) == "mode" && exists k | 0 <= k < |cols| :: AllMissing(ColumnValues(f.rows, cols[k]))
    ensures r.Raise? ==> r == EmptyMode()
    ensures r.Ok? ==> r.value.0.config == p.config && r.value.0.scalers == p.scalers
    ensures r.Ok? ==> r.value.0.numericColumns == p.numericColumns && r.value.0.categoricalColumns == p.categoricalColumns
    ensures r.Ok? ==> r.value.1.columns == f.columns && |r.value.1.rows| == |f.rows|
    decreases |cols|
  {
    if cols == [] then Ok((p, f))
    else
      match FitCategoricalColumn(p, f, cols[0], lib)
      case Raise(e) => Raise(e)
      case Ok(qg) =>
        FillKeepsMissing(p, f, cols[0], lib, qg.1, cols[1..]);
        MissingTail(f.rows, cols);
        FitCategorical(qg.0, qg.1, cols[1..], lib)
  }

  /** Some column is all missing exactly when the first is or one of the
      rest is. */
  lemma MissingTail(rows: seq<Row>, cols: seq<string>)
    requires cols != []
    ensures (exists k | 0 <= k < |cols| :: AllMissing(ColumnValues(rows, cols[k]))) <==>
            AllMissing(ColumnValues(rows, cols[0])) || exists k | 0 <= k < |cols[1..]| :: AllMissing(ColumnValues(rows, cols[1..][k]))
  {
    if exists k | 0 <= k < |cols| :: AllMissing(ColumnValues(rows, cols[k])) {
      var k :| 0 <= k < |cols| && AllMissing(ColumnValues(rows, cols[k]));
      if k > 0 { assert cols[1..][k - 1] == cols[k]; }
    }
  }

  /** After a successful categorical fit of `col`, no column has lost or
      gained a present value: under `"mode"` the filled column had one. */
  lemma FillKeepsMissing(p: Pipeline, f: Frame, col: string, lib: Library, g: Frame, rest: seq<string>)
    requires FitCategoricalColumn(p, f, col, lib).Ok? && g == FitCategoricalColumn(p, f, col, lib).value.1
    ensures Strategy(p.config.categorical) == "mode" ==>
      ((exists k | 0 <= k < |rest| :: AllMissing(ColumnValues(g.rows, rest[k])))
       <==> (exists k | 0 <= k < |rest| :: AllMissing(ColumnValues(f.rows, rest[k]))))
  {
    if Strategy(p.config.categorical) == "mode" {
      var vals := ColumnValues(f.rows, col);
      assert !AllMissing(vals);
      var j :| 0 <= j < |vals| && vals[j] != Null;
      forall c ensures AllMissing(ColumnValues(g.rows, c)) <==> AllMissing(ColumnValues(f.rows, c)) {
        if c == col {
          assert ColumnValues(g.rows, c)[j] != Null;
        } else {
          assert ColumnValues(g.rows, c) == ColumnValues(f.rows, c);
        }
      }
    }
  }

  /** `list.remove` only removes. */
  lemma RemoveFirstSubset(s: seq<string>, x: string, c: string)
    ensures c in RemoveFirst(s, x) ==> c in s
  {
    if x in s {
      var k := FirstIndex(s, x);
      assert RemoveFirst(s, x) == s[..k] + s[k + 1..];
    }
  }

  /** `fit(df, target_column)`: returns the fitted state and the caller's
      frame as the in-place imputation leaves it, or the first exception.
      Scalers and mappings of an earlier fit are kept unless refitted. */
  function Fit(p: Pipeline, f: Frame, target: Option<string>, lib: Library): (r: Result<(Pipeline, Frame)>)
    ensures r.Raise? ==> r == NoSamples() || r == EmptyMode()
    ensures Partition(f, target).0 != [] && Scales(Handling(p.config.numeric)) && |f.rows| == 0 ==> r == NoSamples()
    ensures r.Ok? ==> r.value.0.config == p.config
    ensures r.Ok? ==> (r.value.0.numericColumns, r.value.0.categoricalColumns) == Partition(f, target)
    ensures r.Ok? ==> r.value.1.columns == f.columns && |r.value.1.rows| == |f.rows|
  {
    var (numeric, other) := Partition(f, target);
    var q := p.(numericColumns := numeric, categoricalColumns := other);
    var qg :- FitNumeric(q, f, numeric, lib);
    FitCategorical(qg.0, qg.1, other, lib)
  }

  /** When `fit` raises: a scaling handling given a frame without rows (the
      numeric columns come first), or `"mode"` imputation of a categorical
      column with no present value. */
  lemma FitRaises(p: Pipeline, f: Frame, target: Option<string>, lib: Library)
    ensures var (numeric, other) := Partition(f, target);
      Fit(p, f, target, lib).Raise? <==>
        (numeric != [] && Scales(Handling(p.config.numeric)) && |f.rows| == 0)
        || (Strategy(p.config.categorical) == "mode" && exists k | 0 <= k < |other| :: AllMissing(ColumnValues(f.rows, other[k])))
  {
    var (numeric, other) := Partition(f, target);
    var q := p.(numericColumns := numeric, categoricalColumns := other);
    var n := FitNumeric(q, f, numeric, lib);
    if n.Ok? {
      var g := n.value.1;
      forall k | 0 <= k < |other| ensures ColumnValues(g.rows, other[k]) == ColumnValues(f.rows, other[k]) {
        PartitionDisjoint(f, target, other[k]);
      }
    }
  }

  /** No column is both numeric and categorical. */
  lemma PartitionDisjoint(f: Frame, target: Option<string>, c: string)
    ensures c in Partition(f, target).1 ==> c !in Partition(f, target).0
  {
    var numeric := Filter(f.columns, c => NumericColumn(f, c));
    var other := Filter(f.columns, c => !NumericColumn(f, c));
    FilterSpec(f.columns, c => NumericColumn(f, c));
    FilterSpec(f.columns, c => !NumericColumn(f, c));
    if target.Some? && target.value != "" {
      RemoveFirstSubset(numeric, target.value, c);
      RemoveFirstSubset(other, target.value, c);
    }
  }

  /** Labels are the positions in the fitted mapping: `0..k-1` over the
      distinct imputed values, in order of first occurrence. */
  lemma LabelMapping(p: Pipeline, f: Frame, col: string, lib: Library)
    requires Handling(p.config.categorical) == "label"
    ensures FitCategoricalColumn(p, f, col, lib).Ok? ==>
      var (q, g) := FitCategoricalColumn(p, f, col, lib).value;
      var keys := q.mappings[col];
      NoDuplicates(keys)
      && (forall v :: v in keys <==> v in ColumnValues(g.rows, col))
      && (forall i, j | 0 <= i < j < |keys| :: FirstIndex(ColumnValues(g.rows, col), keys[i]) < FirstIndex(ColumnValues(g.rows, col), keys[j]))
  {
    if FitCategoricalColumn(p, f, col, lib).Ok? {
      var (q, g) := FitCategoricalColumn(p, f, col, lib).value;
      DistinctSpec(ColumnValues(g.rows, col));
    }
  }

  /** Imputing with `"unknown"` while fitting leaves no missing value in the
      caller's column, and that value becomes a fitted category whenever the
      column had a gap. */
  lemma FitFillsUnknown(p: Pipeline, f: Frame, col: string, lib: Library, i: int)
    requires Strategy(p.config.categorical) == "unknown" && Handling(p.config.categorical) == "one_hot"
    requires 0 <= i < |f.rows|
    ensures FitCategoricalColumn(p, f, col, lib).Ok?
    ensures var (q, g) := FitCategoricalColumn(p, f, col, lib).value;
      Cell(g.rows[i], col) != Null
      && (Cell(f.rows[i], col) == Null ==> Str("unknown") in q.mappings[col])
  {
    var (q, g) := FitCategoricalColumn(p, f, col, lib).value;
    DistinctSpec(ColumnValues(g.rows, col));
    assert ColumnValues(g.rows, col)[i] == Cell(g.rows[i], col);
  }

  // ------------------------------------------------------------ transform

  /** The value `fillna` uses while transforming a numeric column: only
      the `"zero"` strategy fills. */
  function NumericTransformFill(p: Pipeline): Option<Value> {
    if Strategy(p.config.numeric) == "zero" then Some(Num(0.0)) else None
  }

  /** The value `fillna` uses while transforming a categorical column: only
      the `"unknown"` strategy fills. */
  function CategoricalTransformFill(p: Pipeline): Option<Value> {
    if Strategy(p.config.categorical) == "unknown" then Some(Str("unknown")) else None
  }

  /** One column of `_transform_numeric`: an absent column is skipped; only
      the `"zero"` strategy fills; a fitted scaler rescales, and refuses a
      frame without rows. */
  function TransformNumericColumn(p: Pipeline, f: Frame, col: string, lib: Library): (r: Result<Frame>)
    ensures r.Raise? <==> col in f.columns && col in p.scalers && |f.rows| == 0
    ensures r.Raise? ==> r == NoSamples()
    ensures col !in f.columns ==> r == Ok(f)
    ensures r.Ok? ==> r.value.columns == f.columns && |r.value.rows| == |f.rows|
    ensures r.Ok? ==> forall i, c | 0 <= i < |f.rows| && c != col :: Cell(r.value.rows[i], c) == Cell(f.rows[i], c)
  {
    if col !in f.columns then Ok(f)
    else
      var g := Fill(f, col, NumericTransformFill(p));
      if col in p.scalers then
        if |g.rows| == 0 then NoSamples()
        else Ok(MapColumn(g, col, v => lib.scale(p.scalers[col], v)))
      else Ok(g)
  }

  /** The label of a value: its position among the fitted keys, `-1` for
      anything unseen. */
  function Label(keys: seq<Value>, v: Value): (r: Value)
    ensures v in keys ==> r == Num(FirstIndex(keys, v) as real)
    ensures v !in keys ==> r == Num(-1.0)
  {
    if v in keys then Num(FirstIndex(keys, v) as real) else Num(-1.0)
  }

  /** `(df[col] == val).astype(int)`: a missing value equals nothing. */
  function Indicator(v: Value, key: Value): (r: Value)
    ensures r == Num(1.0) <==> PyEq(v, key)
    ensures r == Num(0.0) <==> !PyEq(v, key)
  {
    if PyEq(v, key) then Num(1.0) else Num(0.0)
  }

  /** The `for val, new_col in mapping.items()` loop: each indicator column is
      set in turn, a later name overwriting an earlier equal one. */
  function AddIndicators(f: Frame, col: string, keys: seq<Value>, names: seq<string>): (r: Frame)
    requires |keys| == |names|
    ensures |r.rows| == |f.rows|
    ensures forall c :: c in r.columns <==> c in f.columns || c in names
    decreases |keys|
  {
    if keys == [] then f
    else
      var g := SetColumn(f, names[0], Indicators(f.rows, col, keys[0]));
      AddIndicators(g, col, keys[1..], names[1..])
  }

  function Indicators(rows: seq<Row>, col: string, key: Value): (r: seq<Value>)
    ensures |r| == |rows| && forall i | 0 <= i < |rows| :: r[i] == Indicator(Cell(rows[i], col), key)
  {
    seq(|rows|, i requires 0 <= i < |rows| => Indicator(Cell(rows[i], col), key))
  }

  /** Cells outside the indicator names are untouched. */
  lemma {:induction false} AddIndicatorsOthers(f: Frame, col: string, keys: seq<Value>, names: seq<string>, i: int, c: string)
    requires |keys| == |names| && 0 <= i < |f.rows| && c !in names
    ensures Cell(AddIndicators(f, col, keys, names).rows[i], c) == Cell(f.rows[i], c)
    decreases |keys|
  {
    if keys != [] {
      var g := SetColumn(f, names[0], Indicators(f.rows, col, keys[0]));
      AddIndicatorsOthers(g, col, keys[1..], names[1..], i, c);
    }
  }

  /** Each name's column holds the indicator of the last key with that name. */
  lemma {:induction false} AddIndicatorsLast(f: Frame, col: string, keys: seq<Value>, names: seq<string>, i: int, k: int)
    requires |keys| == |names| && col !in names && 0 <= i < |f.rows|
    requires 0 <= k < |keys| && names[k] !in names[k + 1..]
    ensures Cell(AddIndicators(f, col, keys, names).rows[i], names[k]) == Indicator(Cell(f.rows[i], col), keys[k])
    decreases |keys|
  {
    var g := SetColumn(f, names[0], Indicators(f.rows, col, keys[0]));
    var ks := keys[1..];
    var ns := names[1..];
    assert col != names[0];
    if k == 0 {
      assert names[0] !in ns;
      AddIndicatorsOthers(g, col, ks, ns, i, names[0]);
    } else {
      assert names[k] == ns[k - 1] && keys[k] == ks[k - 1] && names[k + 1..] == ns[k..];
      AddIndicatorsLast(g, col, ks, ns, i, k - 1);
    }
  }

  /** One column of `_transform_categorical`: an absent column is skipped;
      only the `"unknown"` strategy fills; a fitted column is label-encoded
      in place or replaced by its indicator columns. */
  function TransformCategoricalColumn(p: Pipeline, f: Frame, col: string, lib: Library): (r: Frame)
    ensures col !in f.columns ==> r == f
    ensures |r.rows| == |f.rows|
  {
    if col !in f.columns then f
    else
      var g := Fill(f, col, CategoricalTransformFill(p));
      var handling := Handling(p.config.categorical);
      if handling == "label" && col in p.mappings then
        MapColumn(g, col, v => Label(p.mappings[col], v))
      else if handling == "one_hot" && col in p.mappings then
        var keys := p.mappings[col];
        var h := AddIndicators(g, col, keys, OneHotNames(lib, col, keys));
        Drop(h, col).value
      else g
  }

  /** `_transform_numeric` over `cols`: raises exactly when the frame has no
      rows and one of the columns is present and has a scaler. */
  function TransformNumeric(p: Pipeline, f: Frame, cols: seq<string>, lib: Library): (r: Result<Frame>)
    ensures r.Raise? <==> |f.rows| == 0 && exists k | 0 <= k < |cols| :: cols[k] in f.columns && cols[k] in p.scalers
    ensures r.Raise? ==> r == NoSamples()
    ensures r.Ok? ==> r.value.columns == f.columns && |r.value.rows| == |f.rows|
    decreases |cols|
  {
    if cols == [] then Ok(f)
    else
      var g :- TransformNumericColumn(p, f, cols[0], lib);
      ScaledTail(cols, f.columns, p.scalers);
      TransformNumeric(p, g, cols[1..], lib)
  }

  /** Some column after the first is present and scaled exactly when some
      column of the rest is. */
  lemma ScaledTail(cols: seq<string>, columns: seq<string>, scalers: map<string, Scaler>)
    requires cols != []
    ensures (exists k | 0 <= k < |cols[1..]| :: cols[1..][k] in columns && cols[1..][k] in scalers) <==>
            (exists k | 1 <= k < |cols| :: cols[k] in columns && cols[k] in scalers)
  {
    if exists k | 1 <= k < |cols| :: cols[k] in columns && cols[k] in scalers {
      var k :| 1 <= k < |cols| && cols[k] in columns && cols[k] in scalers;
      assert cols[1..][k - 1] == cols[k];
    }
  }

  function TransformCategorical(p: Pipeline, f: Frame, cols: seq<string>, lib: Library): (r: Frame)
    ensures |r.rows| == |f.rows|
    decreases |cols|
  {
    if cols == [] then f
    else TransformCategorical(p, TransformCategoricalColumn(p, f, cols[0], lib), cols[1..], lib)
  }

  /** `transform(df)`: works on a copy, numeric columns first. The caller's
      frame is a value here and is returned untouched by construction. Only
      a fitted scaler given a frame without rows refuses. */
  function Transform(p: Pipeline, f: Frame, lib: Library): (r: Result<Frame>)
    ensures r.Raise? <==> |f.rows| == 0 && exists k | 0 <= k < |p.numericColumns| ::
      p.numericColumns[k] in f.columns && p.numericColumns[k] in p.scalers
    ensures r.Raise? ==> r == NoSamples()
    ensures r.Ok? ==> |r.value.rows| == |f.rows|
  {
    var g :- TransformNumeric(p, f, p.numericColumns, lib);
    Ok(TransformCategorical(p, g, p.categoricalColumns, lib))
  }

  // ------------------------------------------------------------ properties

  /** Numeric transform of a present column, cell by cell: a gap becomes
      `0` under the `"zero"` strategy and stays a gap under any other (a
      `"mean"` or `"median"` fill happens only while fitting); a fitted
      scaler then rescales the cell, and without one the cell is kept. */
  lemma NumericTransformCell(p: Pipeline, f: Frame, col: string, lib: Library, i: int)
    requires col in f.columns && 0 <= i < |f.rows|
    ensures TransformNumericColumn(p, f, col, lib).Ok?
    ensures var v := Cell(f.rows[i], col);
      var out := Cell(TransformNumericColumn(p, f, col, lib).value.rows[i], col);
      var zero := Strategy(p.config.numeric) == "zero";
      (col !in p.scalers && zero ==> out == FillNa(v, Num(0.0)))
      && (col !in p.scalers && !zero ==> out == v)
      && (col in p.scalers && zero ==> out == lib.scale(p.scalers[col], FillNa(v, Num(0.0))))
      && (col in p.scalers && !zero ==> out == lib.scale(p.scalers[col], v))
  {
  }

  /** A column fitted with a scaling handling is rescaled at transform time
      by the scaler fitted on the column as the fit imputed it. */
  lemma FittedScalerApplied(p: Pipeline, f: Frame, h: Frame, col: string, lib: Library, i: int)
    requires Handling(p.config.numeric) == "standard_scale" || Handling(p.config.numeric) == "minmax_scale"
    requires col in h.columns && 0 <= i < |h.rows|
    ensures FitNumericColumn(p, f, col, lib).Ok? ==>
      var (q, g) := FitNumericColumn(p, f, col, lib).value;
      TransformNumericColumn(q, h, col, lib).Ok?
      && Cell(TransformNumericColumn(q, h, col, lib).value.rows[i], col)
        == lib.scale(Scaler(Handling(p.config.numeric), ColumnValues(g.rows, col)), Imputed(Cell(h.rows[i], col), NumericTransformFill(p)))
  {
    if FitNumericColumn(p, f, col, lib).Ok? {
      var (q, g) := FitNumericColumn(p, f, col, lib).value;
      NumericTransformCell(q, h, col, lib, i);
    }
  }

  /** Label transform, after the transform-time imputation: a fitted value
      gets its position and any other value gets `-1`. A gap the fit kept
      is itself a fitted key (`map` looks missing values up as equal), so a
      gap gets `-1` only when the fit saw none. */
  lemma LabelTransform(p: Pipeline, f: Frame, col: string, lib: Library, i: int)
    requires Handling(p.config.categorical) == "label" && col in p.mappings && col in f.columns
    requires 0 <= i < |f.rows|
    ensures var keys := p.mappings[col]; var v := Imputed(Cell(f.rows[i], col), CategoricalTransformFill(p));
      var out := Cell(TransformCategoricalColumn(p, f, col, lib).rows[i], col);
      (v in keys ==> out == Num(FirstIndex(keys, v) as real) && 0 <= FirstIndex(keys, v) < |keys|)
      && (v !in keys ==> out == Num(-1.0))
  {
  }

  /** One-hot transform: the original column goes, one indicator column per
      fitted key comes in, set to 1 exactly where the row, after the
      transform-time imputation, equals the key. */
  lemma OneHotTransform(p: Pipeline, f: Frame, col: string, lib: Library)
    requires Handling(p.config.categorical) == "one_hot" && col in p.mappings && col in f.columns
    ensures var keys := p.mappings[col]; var names := OneHotNames(lib, col, keys);
      var r := TransformCategoricalColumn(p, f, col, lib);
      |r.rows| == |f.rows|
      && (forall c :: c in r.columns <==> (c in f.columns || c in names) && c != col)
      && (forall i, c | 0 <= i < |f.rows| && c !in names && c != col :: Cell(r.rows[i], c) == Cell(f.rows[i], c))
      && (forall i, k | 0 <= i < |f.rows| && 0 <= k < |keys| && names[k] !in names[k + 1..] ::
            Cell(r.rows[i], names[k]) == Indicator(Imputed(Cell(f.rows[i], col), CategoricalTransformFill(p)), keys[k]))
  {
    var keys := p.mappings[col];
    var names := OneHotNames(lib, col, keys);
    var g := Fill(f, col, CategoricalTransformFill(p));
    var h := AddIndicators(g, col, keys, names);
    forall i, c | 0 <= i < |f.rows| && c !in names && c != col ensures Cell(h.rows[i], c) == Cell(f.rows[i], c) {
      AddIndicatorsOthers(g, col, keys, names, i, c);
    }
    forall i, k | 0 <= i < |f.rows| && 0 <= k < |keys| && names[k] !in names[k + 1..]
      ensures Cell(h.rows[i], names[k]) == Indicator(Imputed(Cell(f.rows[i], col), CategoricalTransformFill(p)), keys[k])
    {
      AddIndicatorsLast(g, col, keys, names, i, k);
    }
    assert TransformCategoricalColumn(p, f, col, lib) == Drop(h, col).value;
  }

  /** A category unseen at fit time, after the transform-time imputation,
      gives a row of zeros; the indicator columns depend only on the fitted
      keys, not on the frame transformed. */
  lemma UnseenAllZero(p: Pipeline, f: Frame, col: string, lib: Library, i: int)
    requires Handling(p.config.categorical) == "one_hot" && col in p.mappings && col in f.columns
    requires 0 <= i < |f.rows| && Imputed(Cell(f.rows[i], col), CategoricalTransformFill(p)) !in p.mappings[col]
    ensures var keys := p.mappings[col]; var names := OneHotNames(lib, col, keys);
      forall k | 0 <= k < |keys| && names[k] !in names[k + 1..] ::
        Cell(TransformCategoricalColumn(p, f, col, lib).rows[i], names[k]) == Num(0.0)
  {
    OneHotTransform(p, f, col, lib);
  }

  /** Columns fitted but absent when transforming are skipped: a frame that
      holds none of the fitted columns passes through unchanged. */
  lemma {:induction false} AbsentColumnsSkipped(p: Pipeline, f: Frame, lib: Library)
    requires forall c | c in p.numericColumns :: c !in f.columns
    requires forall c | c in p.categoricalColumns :: c !in f.columns
    ensures Transform(p, f, lib) == Ok(f)
  {
    NumericAbsent(p, f, p.numericColumns, lib);
    CategoricalAbsent(p, f, p.categoricalColumns, lib);
  }

  lemma {:induction false} NumericAbsent(p: Pipeline, f: Frame, cols: seq<string>, lib: Library)
    requires forall c | c in cols :: c !in f.columns
    ensures TransformNumeric(p, f, cols, lib) == Ok(f)
  {
    if cols != [] {
      assert cols[0] in cols;
      NumericAbsent(p, f, cols[1..], lib);
    }
  }

  lemma {:induction false} CategoricalAbsent(p: Pipeline, f: Frame, cols: seq<string>, lib: Library)
    requires forall c | c in cols :: c !in f.columns
    ensures TransformCategorical(p, f, cols, lib) == f
  {
    if cols != [] {
      assert cols[0] in cols;
      CategoricalAbsent(p, f, cols[1..], lib);
    }
  }

  /** Mean, median and mode imputation happen only while fitting: with such
      a strategy and no scaler or encoding, transforming leaves a column, gaps
      included, as it was. */
  lemma TransformImputesNothing(p: Pipeline, f: Frame, col: string, lib: Library)
    requires Strategy(p.config.numeric) in {"mean", "median"} && col !in p.scalers
    requires Strategy(p.config.categorical) == "mode" && col !in p.mappings
    ensures TransformNumericColumn(p, f, col, lib) == Ok(f)
    ensures TransformCategoricalColumn(p, f, col, lib) == f
  {
  }
}
