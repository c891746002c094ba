/** The BI app's services: label lists for the select boxes, the claim
  prices under the chosen filters, and the evaluation of the predictions
  against those claims. */
module BiService {
  import opened Wrappers
  import opened Seqs
  import opened Frames
  import opened Joins
  import opened DashboardSchema
  import opened BiModel
  import Age

  // ------------------------------------------------------------ labels

  /** `GenderService.list_labels`: the member names, which are the values. */
  function GenderLabels(c: Container): (r: Result<seq<string>>)
    ensures r.Ok? <==> SelectGenders(c).Ok?
    ensures r.Ok? ==> var vals := Distinct(ColumnValues(c.claims.value.rows, GenderColumn));
      |r.value| == |vals| && forall i | 0 <= i < |vals| :: Str(r.value[i]) == vals[i]
  {
    var genders :- SelectGenders(c);
    Ok(MapSeq(genders, GenderValue))
  }

  /** `NeutralizedService.list_labels`. */
  function NeuterLabels(c: Container): (r: Result<seq<string>>)
    ensures r.Ok? <==> SelectNeuterStates(c).Ok?
    ensures r.Ok? ==> var vals := Distinct(ColumnValues(c.claims.value.rows, NeuterColumn));
      |r.value| == |vals| && forall i | 0 <= i < |vals| :: Str(r.value[i]) == vals[i]
  {
    var states :- SelectNeuterStates(c);
    Ok(MapSeq(states, NeutralizedValue))
  }

  /** Labels listed in order of first appearance, each once, and every
      value of the column among them. */
  lemma GenderLabelsSpec(c: Container)
    requires GenderLabels(c).Ok?
    ensures NoDuplicates(GenderLabels(c).value)
    ensures forall v | v in ColumnValues(c.claims.value.rows, GenderColumn) :: v.Str? && v.s in GenderLabels(c).value
  {
    var vals := ColumnValues(c.claims.value.rows, GenderColumn);
    var labels := GenderLabels(c).value;
    DistinctSpec(vals);
    forall v | v in vals ensures v.Str? && v.s in labels {
      var i :| 0 <= i < |Distinct(vals)| && Distinct(vals)[i] == v;
      assert Str(labels[i]) == v;
    }
    forall i, j | 0 <= i < j < |labels| ensures labels[i] != labels[j] {
      assert Str(labels[i]) == Distinct(vals)[i] && Str(labels[j]) == Distinct(vals)[j];
    }
  }

  /** `BreedService.list_breeds`: the name of each selected breed, which is
      its id. Without claims, or without a `pet_breed_id` column, the
      repository raises `AttributeError`; an id that is not a whole number
      fails the `Breed` validation. */
  function BreedNames(c: Container): (r: Result<seq<int>>)
    ensures c.claims.None? ==> Raises(r, "AttributeError")
    ensures c.claims.Some? && BreedId !in c.claims.value.columns ==> Raises(r, "AttributeError")
    ensures r.Raise? && c.claims.Some? && BreedId in c.claims.value.columns ==> Raises(r, "ValidationError")
    ensures r.Ok? ==> c.claims.Some? && BreedId in c.claims.value.columns
  {
    var breeds :- SelectBreeds(c);
    Ok(breeds)
  }

  /** The breed names are the column's ids, each once, in order of first
      appearance; listing fails exactly when some id is not a whole number. */
  lemma BreedNamesSpec(c: Container)
    requires c.claims.Some? && BreedId in c.claims.value.columns
    ensures BreedNames(c).Ok? <==> forall v | v in ColumnValues(c.claims.value.rows, BreedId) :: WholeNumber(v)
    ensures BreedNames(c).Ok? ==> NoDuplicates(BreedNames(c).value)
    ensures BreedNames(c).Ok? ==> forall v | v in ColumnValues(c.claims.value.rows, BreedId) :: exists i | 0 <= i < |BreedNames(c).value| :: BreedNames(c).value[i] as real == v.x
    ensures BreedNames(c).Ok? ==> forall i | 0 <= i < |BreedNames(c).value| :: Num(BreedNames(c).value[i] as real) in ColumnValues(c.claims.value.rows, BreedId)
  {
    BreedsOfDistinct(ColumnValues(c.claims.value.rows, BreedId));
  }

  /** The breeds read from the distinct values of a column. */
  lemma BreedsOfDistinct(vals: seq<Value>)
    ensures BreedsOf(Distinct(vals)).Ok? <==> forall v | v in vals :: WholeNumber(v)
    ensures BreedsOf(Distinct(vals)).Ok? ==> NoDuplicates(BreedsOf(Distinct(vals)).value)
    ensures BreedsOf(Distinct(vals)).Ok? ==> forall v | v in vals :: exists i | 0 <= i < |BreedsOf(Distinct(vals)).value| :: BreedsOf(Distinct(vals)).value[i] as real == v.x
    ensures BreedsOf(Distinct(vals)).Ok? ==> forall i | 0 <= i < |BreedsOf(Distinct(vals)).value| :: Num(BreedsOf(Distinct(vals)).value[i] as real) in vals
  {
    var d := Distinct(vals);
    DistinctSpec(vals);
    if forall v | v in vals :: WholeNumber(v) {
      forall i | 0 <= i < |d| ensures WholeNumber(d[i]) {
        assert d[i] in vals;
      }
      var names := BreedsOf(d).value;
      assert forall i | 0 <= i < |d| :: d[i] == Num(names[i] as real);
      forall v | v in vals ensures exists i | 0 <= i < |names| :: names[i] as real == v.x {
        var i :| 0 <= i < |d| && d[i] == v;
      }
      forall i, j | 0 <= i < j < |names| ensures names[i] != names[j] {
        assert d[i] != d[j];
      }
    } else {
      var v :| v in vals && !WholeNumber(v);
      var i :| 0 <= i < |d| && d[i] == v;
    }
  }

  /** `AgeService.list_breeds` reads `self.breed_repository`, which its
      constructor never sets: every call raises `AttributeError`. */
  function AgeBreedNames(c: Container): (r: Result<seq<int>>)
    ensures Raises(r, "AttributeError")
  {
    AttributeError("'AgeService' object has no attribute 'breed_repository'")
  }

  /** `AgeRepository.select` has no body and returns `None`. */
  function SelectAges(c: Container): (r: Option<seq<int>>)
    ensures r.None?
  {
    None
  }

  // ------------------------------------------------------------ claim prices

  /** `retrieve_claim_prices`: without any filter the loaded claims (or
      `None`) as they are; with one, filtering needs the claims and every
      filtered column, and keeps the columns. */
  function RetrieveClaimPrices(c: Container, f: Filters): (r: Result<Option<Frame>>)
    ensures Active(f) == [] ==> r == Ok(c.claims)
    ensures c.claims.None? && Active(f) != [] ==> Raises(r, "AttributeError")
    ensures c.claims.Some? ==> (r.Ok? <==> forall p | p in Active(f) :: p.0 in c.claims.value.columns)
    ensures c.claims.Some? && r.Ok? ==> r.value.Some? && r.value.value.columns == c.claims.value.columns
  {
    SelectClaims(c, f)
  }

  /** A successful retrieval holds, in order, the claims equal to every
      given filter. */
  lemma RetrieveClaimPricesSpec(c: Container, f: Filters)
    requires c.claims.Some? && RetrieveClaimPrices(c, f).Ok?
    ensures RetrieveClaimPrices(c, f).value.Some?
    ensures RetrieveClaimPrices(c, f).value.value.rows == Filter(c.claims.value.rows, row => MatchesAll(row, Active(f)))
  {
    SelectWhereSpec(c.claims.value, Active(f));
  }

  // ------------------------------------------------------------ evaluation

  const ClaimPrice := "claim_price"
  const Prediction := "prediction"
  const WeightColumn := "weight_kg"
  const MergeKeys := [BreedId, GenderColumn, NeuterColumn, WeightColumn, Age.AgeColumn]
  const EvaluationColumns := MergeKeys + [ClaimPrice, Prediction, DiffColumn, ErrorRate]

  /** The merge and residual step of `aggregate_price_evaluation`: each
      claim joined with the predictions on the five pet keys, with
      `claim_price - prediction` and its ratio to `claim_price`, both
      computed on `claim_price.astype(float)`. The cast is not written
      back, so the result keeps the claim price as given. */
  function Evaluate(claims: Option<Frame>, predictions: Frame): (r: Result<Frame>)
    ensures claims.None? ==> Raises(r, "TypeError")
    ensures r.Ok? ==> r.value.columns == EvaluationColumns
    ensures claims.Some? && (exists k | k in MergeKeys :: k !in claims.value.columns || k !in predictions.columns) ==> r.Raise?
    ensures claims.Some? && InnerMerge(claims.value, predictions, MergeKeys).Ok? ==>
      var merged := InnerMerge(claims.value, predictions, MergeKeys).value;
      CastColumn(merged, ClaimPrice).Raise? ==> r == Raise(CastColumn(merged, ClaimPrice).exc)
  {
    match claims
    case None => TypeError("Can only merge Series or DataFrame objects, a <class 'NoneType'> was passed")
    case Some(cl) =>
      var merged :- InnerMerge(cl, predictions, MergeKeys);
      Residuals(merged)
  }

  /** The residual step on the merged frame: the price cast to float, the
      residual columns derived from it, the given price put back, and the
      report columns selected. */
  function Residuals(merged: Frame): Result<Frame> {
    var cast :- CastColumn(merged, ClaimPrice);
    var g :- WithResidual(cast, ClaimPrice, Prediction, ClaimPrice);
    SelectColumns(SetColumn(g, ClaimPrice, ColumnValues(merged.rows, ClaimPrice)), EvaluationColumns)
  }

  /** `aggregate_price_evaluation`: the selected predictions lose their
      `claim_price` column in place, so without any filter the container's
      own prediction frame loses it, even when a later step raises. */
  function Aggregate(c: Container, claims: Option<Frame>, f: Filters): (r: (Container, Result<Frame>))
    ensures r.0.claims == c.claims && r.0.records == c.records
    ensures Active(f) != [] ==> r.0 == c
    ensures r.1.Ok? ==> SelectPredictions(c, f).Ok? && SelectPredictions(c, f).value.Some?
    ensures r.1.Ok? ==> ClaimPrice in SelectPredictions(c, f).value.value.columns
    ensures r.1.Ok? ==> r.1.value.columns == EvaluationColumns
    ensures Active(f) == [] && c.predictions.Some? && ClaimPrice in c.predictions.value.columns ==>
      r.0.predictions == Some(Drop(c.predictions.value, ClaimPrice).value)
    ensures Active(f) == [] && c.predictions.Some? && ClaimPrice !in c.predictions.value.columns ==>
      r.0 == c && Raises(r.1, "KeyError")
    ensures c.predictions.None? ==> r.0 == c && Raises(r.1, "AttributeError")
  {
    var sel := SelectPredictions(c, f);
    if sel.Raise? then (c, Raise(sel.exc))
    else if sel.value.None? then (c, AttributeError("'NoneType' object has no attribute 'drop'"))
    else
      var dropped := Drop(sel.value.value, ClaimPrice);
      if dropped.Raise? then (c, Raise(dropped.exc))
      else
        var next := if Active(f) == [] then c.(predictions := Some(dropped.value)) else c;
        (next, Evaluate(claims, dropped.value))
  }

  /** After one unfiltered evaluation has dropped `claim_price`, the next
      unfiltered one raises `KeyError` and changes nothing. */
  lemma SecondUnfilteredCallRaises(c: Container, claims: Option<Frame>, later: Option<Frame>, f: Filters, g: Filters)
    requires Active(f) == [] && Active(g) == []
    requires Aggregate(c, claims, f).1.Ok?
    ensures var c1 := Aggregate(c, claims, f).0;
      Aggregate(c1, later, g).0 == c1 && Raises(Aggregate(c1, later, g).1, "KeyError")
  {
    assert c.predictions.Some? && ClaimPrice in c.predictions.value.columns;
  }

  /** A filtered evaluation can be repeated: the container is untouched. */
  lemma FilteredCallsRepeat(c: Container, claims: Option<Frame>, f: Filters)
    requires Active(f) != []
    ensures Aggregate(Aggregate(c, claims, f).0, claims, f) == Aggregate(c, claims, f)
  {
  }

  /** None of the five keys is renamed onto by the merge. */
  lemma MergeKeysNameFree(lcols: seq<string>, rcols: seq<string>, k: string)
    requires k in MergeKeys
    ensures KeyNameFree(k, lcols, rcols)
  {
    assert k[|k| - 1] != 'x' && k[|k| - 1] != 'y';
    forall c | c in lcols ensures c + "_x" != k {
      assert (c + "_x")[|c + "_x"| - 1] == 'x';
    }
    forall c | c in rcols ensures c + "_y" != k {
      assert (c + "_y")[|c + "_y"| - 1] == 'y';
    }
  }

  /** A claim and a prediction record agree on all five keys. */
  predicate SameKeys(a: Row, b: Row) {
    forall k | k in MergeKeys :: Cell(a, k) == Cell(b, k)
  }

  /** Record `i` of the merge comes from a claim and a prediction that agree
      with it on all five keys. */
  lemma MergedKeys(claims: Frame, predictions: Frame, i: int)
    requires InnerMerge(claims, predictions, MergeKeys).Ok?
    requires 0 <= i < |InnerMerge(claims, predictions, MergeKeys).value.rows|
    ensures var m := InnerMerge(claims, predictions, MergeKeys).value.rows[i];
      exists l, p | l in claims.rows && p in predictions.rows :: SameKeys(m, l) && SameKeys(m, p)
  {
    var m := InnerMerge(claims, predictions, MergeKeys).value.rows[i];
    MergeKeysNameFree(claims.columns, predictions.columns, BreedId);
    MergeKeyCell(claims, predictions, MergeKeys, i, BreedId);
    var pair := Pairs(claims.rows, predictions.rows, MergeKeys)[i];
    forall k | k in MergeKeys ensures Cell(m, k) == Cell(pair.0, k) == Cell(pair.1, k) {
      MergeKeysNameFree(claims.columns, predictions.columns, k);
      MergeKeyCell(claims, predictions, MergeKeys, i, k);
    }
    assert SameKeys(m, pair.0) && SameKeys(m, pair.1);
  }

  lemma EvaluationColumnsKept()
    ensures forall k | k in MergeKeys :: k in EvaluationColumns && k != DiffColumn && k != ErrorRate
    ensures ClaimPrice in EvaluationColumns && Prediction in EvaluationColumns
    ensures DiffColumn in EvaluationColumns && ErrorRate in EvaluationColumns
  {
  }

  /** Record `i` of the evaluation keeps the merged record's keys and its
      given claim price, and relates `diff` and `error_rate` to the claim
      price read as a float and the prediction. */
  lemma EvaluatedRecord(merged: Frame, i: int)
    requires Residuals(merged).Ok?
    requires 0 <= i < |merged.rows|
    ensures |Residuals(merged).value.rows| == |merged.rows|
    ensures var o := Residuals(merged).value.rows[i];
      SameKeys(o, merged.rows[i]) && Cell(o, ClaimPrice) == Cell(merged.rows[i], ClaimPrice)
      && AsFloat(Cell(o, ClaimPrice)).Ok?
      && Sub(AsFloat(Cell(o, ClaimPrice)).value, Cell(o, Prediction)) == Ok(Cell(o, DiffColumn))
      && Div(Cell(o, DiffColumn), AsFloat(Cell(o, ClaimPrice)).value) == Ok(Cell(o, ErrorRate))
  {
    var cast, g := ResidualsSteps(merged);
    var out := Residuals(merged).value;
    RestoredCells(g, ColumnValues(merged.rows, ClaimPrice), i);
    var m, c, o := merged.rows[i], cast.rows[i], out.rows[i];
    assert AsFloat(Cell(m, ClaimPrice)) == Ok(Cell(c, ClaimPrice));
    assert Sub(Cell(c, ClaimPrice), Cell(c, Prediction)) == Ok(Cell(g.rows[i], DiffColumn));
    assert Div(Cell(g.rows[i], DiffColumn), Cell(c, ClaimPrice)) == Ok(Cell(g.rows[i], ErrorRate));
    assert Cell(g.rows[i], Prediction) == Cell(c, Prediction);
    ResidualKeys(cast, g, merged, i);
  }

  /** The residual and cast steps leave the five keys as they were merged. */
  lemma ResidualKeys(cast: Frame, g: Frame, merged: Frame, i: int)
    requires CastColumn(merged, ClaimPrice) == Ok(cast)
    requires WithResidual(cast, ClaimPrice, Prediction, ClaimPrice) == Ok(g)
    requires 0 <= i < |merged.rows|
    ensures forall k | k in MergeKeys :: Cell(g.rows[i], k) == Cell(merged.rows[i], k)
  {
    EvaluationColumnsKept();
    assert forall k | k in MergeKeys :: k != ClaimPrice;
  }

  /** The two intermediate frames of a successful `Residuals`. */
  lemma ResidualsSteps(merged: Frame) returns (cast: Frame, g: Frame)
    requires Residuals(merged).Ok?
    ensures CastColumn(merged, ClaimPrice) == Ok(cast)
    ensures WithResidual(cast, ClaimPrice, Prediction, ClaimPrice) == Ok(g)
    ensures |g.rows| == |merged.rows|
    ensures Residuals(merged) == SelectColumns(SetColumn(g, ClaimPrice, ColumnValues(merged.rows, ClaimPrice)), EvaluationColumns)
  {
    cast := CastColumn(merged, ClaimPrice).value;
    g := WithResidual(cast, ClaimPrice, Prediction, ClaimPrice).value;
  }

  /** Selecting the report columns after putting `prices` back into
      `claim_price` reads the price from `prices` and every other report
      column from `g`. */
  lemma RestoredCells(g: Frame, prices: seq<Value>, i: int)
    requires |prices| == |g.rows| && 0 <= i < |g.rows|
    requires SelectColumns(SetColumn(g, ClaimPrice, prices), EvaluationColumns).Ok?
    ensures var o := SelectColumns(SetColumn(g, ClaimPrice, prices), EvaluationColumns).value.rows[i];
      Cell(o, ClaimPrice) == prices[i]
      && forall c | c in EvaluationColumns && c != ClaimPrice :: Cell(o, c) == Cell(g.rows[i], c)
  {
    EvaluationColumnsKept();
  }

  /** Record `i` of a successful evaluation comes from a given claim and a
      selected prediction that share its five keys, and its `diff` and
      `error_rate` are the claim's excess over the prediction and that
      excess relative to the claim. */
  lemma EvaluateRecord(claims: Frame, predictions: Frame, i: int)
    requires Evaluate(Some(claims), predictions).Ok?
    requires 0 <= i < |Evaluate(Some(claims), predictions).value.rows|
    ensures var o := Evaluate(Some(claims), predictions).value.rows[i];
      (exists l, p | l in claims.rows && p in predictions.rows :: SameKeys(o, l) && SameKeys(o, p))
      && AsFloat(Cell(o, ClaimPrice)).Ok?
      && Sub(AsFloat(Cell(o, ClaimPrice)).value, Cell(o, Prediction)) == Ok(Cell(o, DiffColumn))
      && Div(Cell(o, DiffColumn), AsFloat(Cell(o, ClaimPrice)).value) == Ok(Cell(o, ErrorRate))
  {
    var merged := InnerMerge(claims, predictions, MergeKeys).value;
    var o := Evaluate(Some(claims), predictions).value.rows[i];
    EvaluatedRecord(merged, i);
    MergedKeys(claims, predictions, i);
    var l, p :| l in claims.rows && p in predictions.rows && SameKeys(merged.rows[i], l) && SameKeys(merged.rows[i], p);
    assert SameKeys(o, l) && SameKeys(o, p);
  }

  /** Record `i` of a successful `aggregate_price_evaluation` pairs a given
      claim with a stored prediction that equals every given filter and
      agrees with the claim on all five keys. */
  lemma AggregateRecord(c: Container, claims: Frame, f: Filters, i: int)
    requires Aggregate(c, Some(claims), f).1.Ok?
    requires 0 <= i < |Aggregate(c, Some(claims), f).1.value.rows|
    ensures c.predictions.Some?
    ensures var o := Aggregate(c, Some(claims), f).1.value.rows[i];
      (exists l, p | l in claims.rows && p in c.predictions.value.rows ::
         SameKeys(o, l) && SameKeys(o, p) && MatchesAll(p, Active(f)))
      && AsFloat(Cell(o, ClaimPrice)).Ok?
      && Sub(AsFloat(Cell(o, ClaimPrice)).value, Cell(o, Prediction)) == Ok(Cell(o, DiffColumn))
  {
    var o := Aggregate(c, Some(claims), f).1.value.rows[i];
    var sel := SelectPredictions(c, f).value.value;
    assert c.predictions.Some?;
    var dropped := Drop(sel, ClaimPrice).value;
    EvaluateRecord(claims, dropped, i);
    var l, q :| l in claims.rows && q in dropped.rows && SameKeys(o, l) && SameKeys(o, q);
    var j :| 0 <= j < |dropped.rows| && dropped.rows[j] == q;
    var p := sel.rows[j];
    assert forall k | k in MergeKeys :: k != ClaimPrice;
    assert SameKeys(o, p);
    SelectWhereSpec(c.predictions.value, Active(f));
    FilterSpec(c.predictions.value.rows, row => MatchesAll(row, Active(f)));
    assert p in sel.rows;
  }
}
