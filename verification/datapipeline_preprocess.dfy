/** The data pipeline's `DataPreprocessPipeline`: `preprocess` always
  derives `age` and records the age and weight ranges, `set_categories`
  fixes the one-hot column groups, and `inverse_transform` decodes a
  transformed frame back to categories and original scales.

  A one-hot group is decoded by `idxmax(axis=1)`, the first column holding
  the row's largest value, whose name is split on `'_'` and the last piece
  kept; the decoded breed id is therefore a string.
 */
module DatapipelinePreprocess {
  import opened Wrappers
  import opened Text
  import opened Seqs
  import opened Frames
  import opened Age
  import opened BackendPreprocess

  // ------------------------------------------------------------ the groups

  const OneHotPrefix := "categorical__"

  /** The transformed column of each category value: `categorical__<field>_<value>`. */
  function Group(field: string, values: seq<string>): (r: seq<string>)
    ensures |r| == |values|
    ensures forall k | 0 <= k < |values| :: r[k] == OneHotPrefix + field + "_" + values[k]
  {
    seq(|values|, k requires 0 <= k < |values| => OneHotPrefix + field + "_" + values[k])
  }

  const BreedIds := ["1144", "1121", "1149", "1109", "1301", "1224", "1452", "1325", "1578"]
  const Genders := ["남자", "여자"]
  const Neutered := ["y", "n"]

  const BreedGroup := Group("pet_breed_id", BreedIds)
  const GenderGroup := Group("gender", Genders)
  const NeuterGroup := Group("neuter_yn", Neutered)

  const WeightScaled := "min_max_scaler__weight_kg"
  const AgeScaled := "min_max_scaler__age"

  /** `name.split("_")[-1]`: the text after the last underscore. */
  function LastSegment(s: string): (r: string)
    ensures '_' !in r
    ensures |r| <= |s| && r == s[|s| - |r|..]
  {
    s[RFind(s, '_') + 1..]
  }

  /** The value a group column stands for is its last segment. */
  lemma LastSegmentOf(field: string, v: string)
    requires '_' !in v
    ensures LastSegment(OneHotPrefix + field + "_" + v) == v
  {
    var head := OneHotPrefix + field + "_";
    assert OneHotPrefix + field + "_" + v == head + v;
    RFindAppendWithout(head, v, '_');
    assert head == (OneHotPrefix + field) + "_";
    RFindAppendWith(OneHotPrefix + field, "_", '_');
  }

  /** Distinct values give distinct columns. */
  lemma GroupDistinct(field: string, values: seq<string>)
    requires NoDuplicates(values)
    ensures NoDuplicates(Group(field, values))
  {
    var g := Group(field, values);
    var head := OneHotPrefix + field + "_";
    forall i, j | 0 <= i < j < |g| ensures g[i] != g[j] {
      assert g[i] == head + values[i] && g[j] == head + values[j];
      assert g[i][|head|..] == values[i];
      assert g[j][|head|..] == values[j];
    }
  }

  /** `set_categories`: nine breed, two gender and two neutering columns, all
      distinct, whatever the data; each decodes to its category value. */
  lemma FixedGroups()
    ensures |BreedGroup| == 9 && |GenderGroup| == 2 && |NeuterGroup| == 2
    ensures NoDuplicates(BreedGroup) && NoDuplicates(GenderGroup) && NoDuplicates(NeuterGroup)
    ensures forall k | 0 <= k < 9 :: LastSegment(BreedGroup[k]) == BreedIds[k]
    ensures forall k | 0 <= k < 2 :: LastSegment(GenderGroup[k]) == Genders[k]
    ensures forall k | 0 <= k < 2 :: LastSegment(NeuterGroup[k]) == Neutered[k]
  {
    GroupDistinct("pet_breed_id", BreedIds);
    GroupDistinct("gender", Genders);
    GroupDistinct("neuter_yn", Neutered);
    forall k | 0 <= k < 9 ensures LastSegment(BreedGroup[k]) == BreedIds[k] {
      assert '_' !in BreedIds[k];
      LastSegmentOf("pet_breed_id", BreedIds[k]);
    }
    forall k | 0 <= k < 2 ensures LastSegment(GenderGroup[k]) == Genders[k] {
      assert '_' !in Genders[k];
      LastSegmentOf("gender", Genders[k]);
    }
    forall k | 0 <= k < 2 ensures LastSegment(NeuterGroup[k]) == Neutered[k] {
      assert '_' !in Neutered[k];
      LastSegmentOf("neuter_yn", Neutered[k]);
    }
  }

  // ------------------------------------------------------------ idxmax

  predicate Numeric(vals: seq<Value>) {
    forall i | 0 <= i < |vals| :: vals[i].Num? || vals[i] == Null
  }

  /** The position of the first largest present number, skipping missing
      values; `None` when every value is missing. */
  function ArgMax(vals: seq<Value>): (r: Option<nat>)
    requires Numeric(vals)
    ensures r.None? <==> forall i | 0 <= i < |vals| :: vals[i] == Null
    ensures r.Some? ==> r.value < |vals| && vals[r.value].Num?
    ensures r.Some? ==> forall i | 0 <= i < |vals| && vals[i].Num? :: vals[i].x <= vals[r.value].x
    ensures r.Some? ==> forall i | 0 <= i < r.value && vals[i].Num? :: vals[i].x < vals[r.value].x
  {
    if vals == [] then None
    else
      var n := |vals| - 1;
      var init := vals[..n];
      assert forall i | 0 <= i < n :: init[i] == vals[i];
      var k := ArgMax(init);
      if vals[n] == Null then k
      else if k.None? || vals[k.value].x < vals[n].x then Some(n)
      else k
  }

  function Cells(row: Row, cols: seq<string>): (r: seq<Value>)
    ensures |r| == |cols| && forall k | 0 <= k < |cols| :: r[k] == Cell(row, cols[k])
  {
    seq(|cols|, k requires 0 <= k < |cols| => Cell(row, cols[k]))
  }

  /** `row[group].idxmax()` followed by `split("_")[-1]`. Non-numeric cells
      cannot be reduced; an all-missing row yields NaN, which has no `split`. */
  function DecodeRow(row: Row, group: seq<string>): (r: Result<Value>)
    ensures r.Ok? ==> exists k | 0 <= k < |group| :: r.value == Str(LastSegment(group[k]))
    ensures r.Ok? <==> Numeric(Cells(row, group)) && exists k | 0 <= k < |group| :: Cell(row, group[k]) != Null
  {
    var vals := Cells(row, group);
    if !Numeric(vals) then TypeError("reduction operation 'argmax' not allowed for this dtype")
    else
      match ArgMax(vals)
      case None => AttributeError("'float' object has no attribute 'split'")
      case Some(k) => Ok(Str(LastSegment(group[k])))
  }

  /** The one-hot record of the `k`-th category of a group. */
  function OneHot(group: seq<string>, k: nat): Row
    requires k < |group|
  {
    map c | c in group :: if c == group[k] then Num(1.0) else Num(0.0)
  }

  /** Encoding then decoding gives back the category: the single 1 is the
      unique maximum. */
  lemma DecodeOneHot(group: seq<string>, k: nat, row: Row)
    requires k < |group| && NoDuplicates(group)
    requires forall c | c in group :: c in row && row[c] == OneHot(group, k)[c]
    ensures DecodeRow(row, group) == Ok(Str(LastSegment(group[k])))
  {
    var vals := Cells(row, group);
    assert forall j | 0 <= j < |group| :: vals[j] == (if j == k then Num(1.0) else Num(0.0)) by {
      forall j | 0 <= j < |group| ensures vals[j] == (if j == k then Num(1.0) else Num(0.0)) {
        assert group[j] in group;
      }
    }
    assert vals[k] != Null;
    var m := ArgMax(vals).value;
    assert vals[k].x <= vals[m].x;
    assert m == k;
  }

  /** The category decoded from the fixed groups is the one encoded. */
  lemma GenderRoundTrip(k: nat, row: Row)
    requires k < 2
    requires forall c | c in GenderGroup :: c in row && row[c] == OneHot(GenderGroup, k)[c]
    ensures DecodeRow(row, GenderGroup) == Ok(Str(Genders[k]))
  {
    FixedGroups();
    DecodeOneHot(GenderGroup, k, row);
  }

  /** `idxmax` returns the first column holding the largest number, so on
      a tie the earliest column of the group wins. */
  lemma DecodeFirstLargest(row: Row, group: seq<string>, k: nat)
    requires k < |group| && Numeric(Cells(row, group)) && Cell(row, group[k]).Num?
    requires forall j | 0 <= j < |group| && Cell(row, group[j]).Num? :: Cell(row, group[j]).x <= Cell(row, group[k]).x
    requires forall j | 0 <= j < k && Cell(row, group[j]).Num? :: Cell(row, group[j]).x < Cell(row, group[k]).x
    ensures DecodeRow(row, group) == Ok(Str(LastSegment(group[k])))
  {
    var vals := Cells(row, group);
    assert vals[k] != Null;
    var m := ArgMax(vals).value;
    assert vals[k].x <= vals[m].x;
    assert m == k;
  }

  // ------------------------------------------------------------ min-max

  /** `MinMaxScalerReverse(lo, hi).inverse_transform(x)`. */
  function Unscale(x: real, lo: real, hi: real): real {
    x * (hi - lo) + lo
  }

  /** The scaling `MinMaxScaler` applies, for a non-degenerate range. */
  function Scale(v: real, lo: real, hi: real): real
    requires lo < hi
  {
    (v - lo) / (hi - lo)
  }

  /** The reverse scaler undoes the forward one, sends 0 to the minimum and 1
      to the maximum. */
  lemma UnscaleInverts(v: real, lo: real, hi: real)
    requires lo < hi
    ensures Unscale(Scale(v, lo, hi), lo, hi) == v
    ensures Unscale(0.0, lo, hi) == lo && Unscale(1.0, lo, hi) == hi
  {
    var d := hi - lo;
    assert (v - lo) / d * d == v - lo;
  }

  /** A value inside the range scales into `[0, 1]`. */
  lemma ScaleBounds(v: real, lo: real, hi: real)
    requires lo <= v <= hi && lo < hi
    ensures 0.0 <= Scale(v, lo, hi) <= 1.0
  {
    var d := hi - lo;
    var s := (v - lo) / d;
    assert s * d == v - lo;
    PositiveProduct(s - 1.0, d);
    PositiveProduct(-s, d);
  }

  lemma PositiveProduct(x: real, d: real)
    requires d > 0.0
    ensures x > 0.0 ==> x * d > 0.0
  {
  }

  /** The reverse scaler on a cell: numbers are unscaled, a missing operand
      propagates as missing, anything else cannot be multiplied. */
  function UnscaleCell(x: Value, lo: Value, hi: Value): (r: Result<Value>)
    ensures x.Num? && lo.Num? && hi.Num? ==> r == Ok(Num(Unscale(x.x, lo.x, hi.x)))
    ensures r.Ok? && r.value != Null ==> x.Num? && lo.Num? && hi.Num?
  {
    var ops := [x, lo, hi];
    if x.Num? && lo.Num? && hi.Num? then Ok(Num(Unscale(x.x, lo.x, hi.x)))
    else if Numeric(ops) then Ok(Null)
    else TypeError("unsupported operand type(s) for *")
  }

  // ------------------------------------------------------------ the pipeline

  /** What `preprocess` leaves on the object: the ranges and the groups
      (`set_categories`), or nothing before the first call. */
  datatype Encoder = Encoder(stats: Option<Stats>)

  /** `preprocess(x)`: the age is always derived from `birth` and
      `created_at`, which are dropped; the ranges are recorded. */
  function Preprocess(e: Encoder, x: Frame): (r: Result<(Frame, Encoder)>)
    ensures r.Ok? ==> WithAge(x) == Ok(r.value.0)
    ensures r.Ok? ==> |r.value.0.rows| == |x.rows| && Birth !in r.value.0.columns && CreatedAt !in r.value.0.columns
    ensures r.Ok? ==> r.value.1.stats.Some?
    ensures r.Ok? ==> Range(r.value.0, AgeColumn) == Ok((r.value.1.stats.value.ageMax, r.value.1.stats.value.ageMin))
    ensures r.Ok? ==> Range(r.value.0, WeightColumn) == Ok((r.value.1.stats.value.weightMax, r.value.1.stats.value.weightMin))
    ensures WithAge(x).Raise? ==> r == Raise(WithAge(x).exc)
    ensures x.rows == [] && |x.columns| != 1 ==> r.Raise? && r.exc.kind == "ValueError"
  {
    var withAge :- WithAge(x);
    var ages :- Range(withAge, AgeColumn);
    if WeightColumn !in withAge.columns then KeyError(WeightColumn)
    else
      var weights :- Range(withAge, WeightColumn);
      Ok((withAge, Encoder(Some(Stats(ages.0, ages.1, weights.0, weights.1)))))
  }

  const GenderColumn := "gender"
  const NeuterColumn := "neuter_yn"

  /** Every column `inverse_transform` removes. */
  function Encoded(): (r: seq<string>)
    ensures |r| == 15
  {
    BreedGroup + GenderGroup + NeuterGroup + [WeightScaled, AgeScaled]
  }

  /** The columns `inverse_transform` writes, in order. */
  const Targets := [GenderColumn, NeuterColumn, BreedColumn, WeightColumn, AgeColumn]

  /** The first record a per-record step fails on, if any. */
  function FirstError(rows: seq<Row>, step: Row -> Result<Value>): (r: Result<Unit>)
    ensures r.Ok? <==> forall i | 0 <= i < |rows| :: step(rows[i]).Ok?
    ensures r.Raise? ==> exists i | 0 <= i < |rows| :: step(rows[i]) == Raise(r.exc)
  {
    if rows == [] then Ok(Unit)
    else
      var v :- step(rows[0]);
      var rest := FirstError(rows[1..], step);
      assert forall i | 1 <= i < |rows| :: rows[i] == rows[1..][i - 1];
      rest
  }

  /** Every column of `cols` is among `have`. */
  predicate Present(cols: seq<string>, have: seq<string>) {
    forall c | c in cols :: c in have
  }

  /** One column assignment of `inverse_transform`: selecting `cols` raises
      `KeyError` for a missing one, then the step runs over every record. */
  function Step(df: Frame, cols: seq<string>, step: Row -> Result<Value>): (r: Result<Unit>)
    ensures r.Ok? <==> Present(cols, df.columns) && forall i | 0 <= i < |df.rows| :: step(df.rows[i]).Ok?
    ensures !Present(cols, df.columns) ==> r.Raise? && r.exc.kind == "KeyError"
  {
    var missing := Missing(cols, df.columns);
    if missing != [] then
      assert missing[0] in missing;
      KeyError(missing[0])
    else FirstError(df.rows, step)
  }

  function DecodeStep(group: seq<string>): Row -> Result<Value> {
    row => DecodeRow(row, group)
  }

  function UnscaleStep(src: string, lo: Value, hi: Value): Row -> Result<Value> {
    row => UnscaleCell(Cell(row, src), lo, hi)
  }

  /** The record-wise conditions under which all five steps succeed. */
  predicate RowSteps(row: Row, s: Stats) {
    && DecodeRow(row, GenderGroup).Ok? && DecodeRow(row, NeuterGroup).Ok? && DecodeRow(row, BreedGroup).Ok?
    && UnscaleCell(Cell(row, WeightScaled), s.weightMin, s.weightMax).Ok?
    && UnscaleCell(Cell(row, AgeScaled), s.ageMin, s.ageMax).Ok?
  }

  /** The five steps in `inverse_transform`'s order. */
  function Steps(df: Frame, s: Stats): (r: Result<Unit>)
    ensures r.Ok? ==> forall i | 0 <= i < |df.rows| :: RowSteps(df.rows[i], s)
    ensures r.Ok? ==> Present(GenderGroup, df.columns) && Present(NeuterGroup, df.columns) && Present(BreedGroup, df.columns)
    ensures r.Ok? ==> WeightScaled in df.columns && AgeScaled in df.columns
    ensures !Present(GenderGroup, df.columns) ==> r.Raise? && r.exc.kind == "KeyError"
  {
    var _ :- Step(df, GenderGroup, DecodeStep(GenderGroup));
    var _ :- Step(df, NeuterGroup, DecodeStep(NeuterGroup));
    var _ :- Step(df, BreedGroup, DecodeStep(BreedGroup));
    var _ :- Step(df, [WeightScaled], UnscaleStep(WeightScaled, s.weightMin, s.weightMax));
    var _ :- Step(df, [AgeScaled], UnscaleStep(AgeScaled, s.ageMin, s.ageMax));
    assert forall i | 0 <= i < |df.rows| :: RowSteps(df.rows[i], s);
    Ok(Unit)
  }

  /** The groups and the two scaled columns cover every transformed column. */
  lemma EncodedPresent(have: seq<string>)
    requires Present(GenderGroup, have) && Present(NeuterGroup, have) && Present(BreedGroup, have)
    requires WeightScaled in have && AgeScaled in have
    ensures Present(Encoded(), have)
  {
    forall c | c in Encoded() ensures c in have {
      assert c in BreedGroup || c in GenderGroup || c in NeuterGroup || c == WeightScaled || c == AgeScaled;
    }
  }

  /** A record with the `gone` fields removed and the five targets written. */
  function Rebuilt(row: Row, gone: set<string>, g: Value, n: Value, b: Value, w: Value, a: Value): (r: Row)
    requires forall c | c in gone :: c !in Targets
    ensures Cell(r, GenderColumn) == g && Cell(r, NeuterColumn) == n && Cell(r, BreedColumn) == b
    ensures Cell(r, WeightColumn) == w && Cell(r, AgeColumn) == a
    ensures forall c | c in gone :: c !in r
  {
    (row - gone)[GenderColumn := g][NeuterColumn := n][BreedColumn := b][WeightColumn := w][AgeColumn := a]
  }

  /** The transformed columns, as a set. */
  function EncodedSet(): (r: set<string>)
    ensures forall c :: c in r <==> c in Encoded()
    ensures forall c | c in r :: c !in Targets
  {
    NotEncoded();
    set c | c in Encoded()
  }

  /** `out` holds the decoded groups and the unscaled values of `row`, and
      none of its transformed fields. */
  predicate Inverted(row: Row, out: Row, s: Stats) {
    && DecodeRow(row, GenderGroup) == Ok(Cell(out, GenderColumn))
    && DecodeRow(row, NeuterGroup) == Ok(Cell(out, NeuterColumn))
    && DecodeRow(row, BreedGroup) == Ok(Cell(out, BreedColumn))
    && UnscaleCell(Cell(row, WeightScaled), s.weightMin, s.weightMax) == Ok(Cell(out, WeightColumn))
    && UnscaleCell(Cell(row, AgeScaled), s.ageMin, s.ageMax) == Ok(Cell(out, AgeColumn))
    && forall c | c in Encoded() :: c !in out
  }

  /** One record after `inverse_transform`. */
  function InverseRow(row: Row, s: Stats): (r: Row)
    requires RowSteps(row, s)
    ensures Inverted(row, r, s)
  {
    Rebuilt(row, EncodedSet(),
            DecodeRow(row, GenderGroup).value, DecodeRow(row, NeuterGroup).value, DecodeRow(row, BreedGroup).value,
            UnscaleCell(Cell(row, WeightScaled), s.weightMin, s.weightMax).value,
            UnscaleCell(Cell(row, AgeScaled), s.ageMin, s.ageMax).value)
  }

  /** The columns after `inverse_transform`: new targets are appended, then
      every transformed column is removed. */
  function InverseColumns(cols: seq<string>): (r: seq<string>)
    ensures forall c :: c in r <==> (c in cols || c in Targets) && c !in Encoded()
    ensures forall c | c in Targets :: c in r
  {
    NotEncoded();
    var added := Filter(Targets, c => c !in cols);
    FilterSpec(Targets, c => c !in cols);
    FilterSpec(cols + added, c => c !in Encoded());
    Filter(cols + added, c => c !in Encoded())
  }

  /** `inverse_transform(df)`: the groups are decoded (gender, neutering,
      breed), the scaled columns reversed with the recorded ranges, and every
      transformed column is removed. Without a prior `preprocess` the groups
      do not exist yet. */
  function InverseTransform(e: Encoder, df: Frame): (r: Result<Frame>)
    ensures e.stats.None? ==> r.Raise? && r.exc.kind == "AttributeError"
    ensures e.stats.Some? && (exists c | c in GenderGroup :: c !in df.columns) ==> r.Raise? && r.exc.kind == "KeyError"
    ensures r.Ok? ==> |r.value.rows| == |df.rows|
    ensures r.Ok? ==> forall c | c in Encoded() :: c in df.columns && c !in r.value.columns
    ensures r.Ok? ==> forall c | c in Targets :: c in r.value.columns
    ensures r.Ok? ==> forall i | 0 <= i < |df.rows| :: Inverted(df.rows[i], r.value.rows[i], e.stats.value)
  {
    match e.stats
    case None => AttributeError("'DataPreprocessPipeline' object has no attribute 'gender_categories'")
    case Some(s) =>
      var _ :- Steps(df, s);
      EncodedPresent(df.columns);
      var rows := InverseRows(df.rows, s);
      Ok(Frame(InverseColumns(df.columns), rows))
  }

  function InverseRows(rows: seq<Row>, s: Stats): (r: seq<Row>)
    requires forall i | 0 <= i < |rows| :: RowSteps(rows[i], s)
    ensures |r| == |rows| && forall i | 0 <= i < |rows| :: Inverted(rows[i], r[i], s)
  {
    seq(|rows|, i requires 0 <= i < |rows| => InverseRow(rows[i], s))
  }

  /** The output column names are not transformed-column names. */
  lemma NotEncoded()
    ensures forall c | c in Encoded() :: c != GenderColumn && c != NeuterColumn && c != BreedColumn && c != WeightColumn && c != AgeColumn
    ensures forall c | c in Encoded() :: c !in Targets
  {
    forall c | c in Encoded()
      ensures c != GenderColumn && c != NeuterColumn && c != BreedColumn && c != WeightColumn && c != AgeColumn
    {
      if c in BreedGroup + GenderGroup + NeuterGroup {
        assert |c| > |OneHotPrefix| + 3;
      }
    }
  }
}
