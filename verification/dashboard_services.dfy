/** The dashboard's data and prediction services: filtering the loaded
  claims or predictions by the sidebar's selections, the distinct values and
  the range of a column, and the claim-by-claim comparison of predictions
  with actual prices. */
module DashboardServices {
  import opened Wrappers
  import opened Seqs
  import opened Frames
  import opened Joins
  import opened DashboardContainer

  /** What a sidebar widget hands over: a plain value, a `(low, high)`
      tuple, or an enum member whose `.value` is compared. */
  datatype Selection = Plain(v: Value) | Pair(lo: Value, hi: Value) | Member(value: Value)

  /** The selection that means "no filter". */
  const All := Plain(Str("ALL"))

  /** The value compared by an equality filter (`selected.value` for an enum). */
  function Selected(sel: Selection): Value
    requires !sel.Pair?
  {
    match sel
    case Plain(v) => v
    case Member(v) => v
  }

  /** One filtering step. `NoMatch` is `df[col] == <tuple>`, which no cell
      equals; `Fail` raises once the column has been looked up;
      `FailAfterGe` compares the column with `lo` by `>=` and, when that
      comparison is defined, raises. */
  datatype Step = Skip | Apply(c: Cond) | NoMatch(col: string) | Fail(col: string, exc: Exc)
                | FailAfterGe(col: string, lo: Value, exc: Exc)

  function RunStep(f: Frame, s: Step): (r: Result<Frame>)
    ensures r.Ok? ==> r.value.columns == f.columns
  {
    match s
    case Skip => Ok(f)
    case Apply(c) => Where(f, c)
    case NoMatch(col) => if col !in f.columns then KeyError(col) else Ok(f.(rows := []))
    case Fail(col, exc) => if col !in f.columns then KeyError(col) else Raise(exc)
    case FailAfterGe(col, lo, exc) =>
      if col !in f.columns then KeyError(col)
      else
        var ge :- MaskOf(f.rows, row => Ge(Cell(row, col), lo));
        Raise(exc)
  }

  /** The steps applied one after another; the first failure is raised. */
  function RunSteps(f: Frame, steps: seq<Step>): (r: Result<Frame>)
    ensures r.Ok? ==> r.value.columns == f.columns
    decreases |steps|
  {
    if steps == [] then Ok(f)
    else
      var g :- RunStep(f, steps[0]);
      RunSteps(g, steps[1..])
  }

  /** Whether a record passes one successful step. */
  predicate Passes(row: Row, s: Step) {
    match s
    case Skip => true
    case Apply(c) => Satisfies(row, c)
    case NoMatch(_) => false
    case Fail(_, _) => false
    case FailAfterGe(_, _, _) => false
  }

  predicate PassesAll(row: Row, steps: seq<Step>) {
    forall s | s in steps :: Passes(row, s)
  }

  lemma RunStepSpec(f: Frame, s: Step)
    requires RunStep(f, s).Ok?
    ensures RunStep(f, s).value.rows == Filter(f.rows, row => Passes(row, s))
  {
    match s
    case Skip =>
      FilterAll(f.rows, row => Passes(row, s));
    case Apply(c) =>
      WhereSpec(f, c);
      FilterSame(f.rows, row => Satisfies(row, c), row => Passes(row, s));
    case NoMatch(_) =>
      FilterEmpty(f.rows, row => Passes(row, s));
    case Fail(_, _) =>
    case FailAfterGe(_, _, _) =>
  }

  /** A successful run keeps, in order, exactly the records that pass every
      step, whatever the order of the steps. */
  lemma {:induction false} RunStepsSpec(f: Frame, steps: seq<Step>)
    requires RunSteps(f, steps).Ok?
    ensures RunSteps(f, steps).value.rows == Filter(f.rows, row => PassesAll(row, steps))
    decreases |steps|
  {
    if steps == [] {
      FilterAll(f.rows, row => PassesAll(row, steps));
    } else {
      var s := steps[0];
      var rest := steps[1..];
      var g := RunStep(f, s).value;
      RunStepSpec(f, s);
      RunStepsSpec(g, rest);
      forall x ensures PassesAll(x, steps) == (Passes(x, s) && PassesAll(x, rest)) {
        assert steps == [s] + rest;
      }
      FilterTwice(f.rows, row => Passes(row, s), row => PassesAll(row, rest), row => PassesAll(row, steps));
    }
  }

  /** Two successful runs of the same steps in any order give the same frame. */
  lemma StepOrderIrrelevant(f: Frame, a: seq<Step>, b: seq<Step>)
    requires forall s :: s in a <==> s in b
    requires RunSteps(f, a).Ok? && RunSteps(f, b).Ok?
    ensures RunSteps(f, a) == RunSteps(f, b)
  {
    RunStepsSpec(f, a);
    RunStepsSpec(f, b);
    FilterSame(f.rows, row => PassesAll(row, a), row => PassesAll(row, b));
  }

  /** A step that is skipped at the end changes nothing. */
  lemma {:induction false} SkipAtEnd(f: Frame, steps: seq<Step>)
    ensures RunSteps(f, steps + [Skip]) == RunSteps(f, steps)
    decreases |steps|
  {
    if steps == [] {
      assert [] + [Skip] == [Skip];
    } else {
      assert (steps + [Skip])[0] == steps[0];
      assert (steps + [Skip])[1..] == steps[1..] + [Skip];
      var g := RunStep(f, steps[0]);
      if g.Ok? {
        SkipAtEnd(g.value, steps[1..]);
      }
    }
  }

  // ------------------------------------------------------------ retrieve

  /** How `DataService.retrieve` and `PredictionService.retrieve` turn one
      `(variable_name, selected)` pair into a step: "ALL" is skipped; for
      `age` the selection's items 0 and 1 bound an inclusive range (a string
      gives its first two characters, anything else cannot be indexed);
      any other column is compared for equality, and a tuple equals no cell. */
  function ServiceStep(name: string, sel: Selection): (r: Step)
    ensures sel == All ==> r == Skip
    ensures sel != All && name == "age" && sel.Pair? ==> r == Apply(Within(name, sel.lo, sel.hi))
    ensures sel != All && name != "age" && !sel.Pair? ==> r == Apply(Equals(name, Selected(sel)))
    ensures sel != All && name != "age" && sel.Pair? ==> r == NoMatch(name)
    ensures r.Fail? || r.FailAfterGe? ==> name == "age" && r.col == name
  {
    if sel == All then Skip
    else if name == "age" then
      match sel
      case Pair(lo, hi) => Apply(Within(name, lo, hi))
      case Plain(Str(s)) =>
        if |s| >= 2 then Apply(Within(name, Str([s[0]]), Str([s[1]])))
        else if |s| == 1 then FailAfterGe(name, Str(s), Exc("IndexError", "string index out of range"))
        else Fail(name, Exc("IndexError", "string index out of range"))
      case Plain(_) => Fail(name, Exc("TypeError", "object is not subscriptable"))
      case Member(_) => Fail(name, Exc("TypeError", "object is not subscriptable"))
    else if sel.Pair? then NoMatch(name)
    else Apply(Equals(name, Selected(sel)))
  }

  /** A one-character selection on `age`: `selected[0]` exists, so the
      column is compared with it first, and that raises `TypeError` exactly
      when a present age is not text; only otherwise does `selected[1]`
      raise `IndexError`. An empty string raises `IndexError` at once. */
  lemma OneCharacterAge(f: Frame, s: string)
    requires "age" in f.columns && |s| <= 1
    ensures var r := RunStep(f, ServiceStep("age", Plain(Str(s))));
      r.Raise?
      && (r.exc.kind == "TypeError" <==> |s| == 1 && exists i | 0 <= i < |f.rows| :: Cell(f.rows[i], "age") != Null && !Cell(f.rows[i], "age").Str?)
      && (r.exc.kind != "TypeError" ==> r.exc == Exc("IndexError", "string index out of range"))
  {
    if |s| == 1 {
      var m := MaskOf(f.rows, row => Ge(Cell(row, "age"), Str(s)));
      if m.Raise? {
        var i :| 0 <= i < |f.rows| && Ge(Cell(f.rows[i], "age"), Str(s)) == Raise(m.exc);
      }
      if exists i | 0 <= i < |f.rows| :: Cell(f.rows[i], "age") != Null && !Cell(f.rows[i], "age").Str? {
        var i :| 0 <= i < |f.rows| && Cell(f.rows[i], "age") != Null && !Cell(f.rows[i], "age").Str?;
        assert Ge(Cell(f.rows[i], "age"), Str(s)).Raise?;
      }
    }
  }

  function ServiceSteps(filters: seq<(string, Selection)>): (r: seq<Step>)
    ensures |r| == |filters| && forall i | 0 <= i < |filters| :: r[i] == ServiceStep(filters[i].0, filters[i].1)
  {
    MapSeq(filters, (p: (string, Selection)) => ServiceStep(p.0, p.1))
  }

  /** The shared body of both services' `retrieve`: nothing loaded gives
      `None`, no filter list gives the whole frame, otherwise the filters
      are applied in order. */
  function Retrieve(source: Option<Frame>, filters: Option<seq<(string, Selection)>>): (r: Result<Option<Frame>>)
    ensures source.None? ==> r == Ok(None)
    ensures source.Some? && filters.None? ==> r == Ok(source)
    ensures source.Some? && r.Ok? ==> r.value.Some? && r.value.value.columns == source.value.columns
  {
    match source
    case None => Ok(None)
    case Some(f) =>
      match filters
      case None => Ok(Some(f))
      case Some(fs) =>
        var g :- RunSteps(f, ServiceSteps(fs));
        Ok(Some(g))
  }

  /** `DataService.retrieve` on the loaded claims. */
  function RetrieveClaims(c: Container, filters: Option<seq<(string, Selection)>>): (r: Result<Option<Frame>>)
    ensures c.claims.None? ==> r == Ok(None)
    ensures c.claims.Some? && r.Ok? ==> r.value.Some? && r.value.value.columns == c.claims.value.columns
  {
    Retrieve(c.claims, filters)
  }

  /** `PredictionService.retrieve` on the loaded predictions. */
  function RetrievePredictions(c: Container, filters: Option<seq<(string, Selection)>>): (r: Result<Option<Frame>>)
    ensures c.predictions.None? ==> r == Ok(None)
    ensures c.predictions.Some? && r.Ok? ==> r.value.Some? && r.value.value.columns == c.predictions.value.columns
  {
    Retrieve(c.predictions, filters)
  }

  /** A successful retrieve keeps, in their order, exactly the records that
      pass every selection. */
  lemma RetrieveSpec(f: Frame, filters: seq<(string, Selection)>)
    requires Retrieve(Some(f), Some(filters)).Ok?
    ensures var g := Retrieve(Some(f), Some(filters)).value.value;
      g.rows == Filter(f.rows, row => PassesAll(row, ServiceSteps(filters)))
      && IsSubseq(g.rows, f.rows)
  {
    RunStepsSpec(f, ServiceSteps(filters));
    FilterSpec(f.rows, row => PassesAll(row, ServiceSteps(filters)));
  }

  /** A trailing "ALL" selection changes nothing. */
  lemma RetrieveIgnoresAll(source: Option<Frame>, filters: seq<(string, Selection)>, name: string)
    ensures Retrieve(source, Some(filters + [(name, All)])) == Retrieve(source, Some(filters))
  {
    if source.Some? {
      assert ServiceSteps(filters + [(name, All)]) == ServiceSteps(filters) + [Skip];
      SkipAtEnd(source.value, ServiceSteps(filters));
    }
  }

  /** An enum member filters exactly like its plain value. */
  lemma MemberLikeValue(name: string, v: Value)
    requires name != "age" && v != Str("ALL")
    ensures ServiceStep(name, Member(v)) == ServiceStep(name, Plain(v)) == Apply(Equals(name, v))
  {
  }

  // ------------------------------------------------------------ unique / range

  /** `get_unique_values`: `[]` before loading, else the column's distinct
      values in order of first occurrence. */
  function UniqueValues(c: Container, col: string): (r: Result<seq<Value>>)
    ensures c.claims.None? ==> r == Ok([])
    ensures c.claims.Some? ==> (r.Raise? <==> col !in c.claims.value.columns)
    ensures c.claims.Some? && r.Ok? ==> NoDuplicates(r.value)
    ensures c.claims.Some? && r.Ok? ==> forall v :: v in r.value <==> v in ColumnValues(c.claims.value.rows, col)
    ensures c.claims.Some? && r.Ok? ==> FirstOccurrences(r.value, ColumnValues(c.claims.value.rows, col))
  {
    match c.claims
    case None => Ok([])
    case Some(f) => Unique(f, col)
  }

  /** `get_value_range`: `(0, 0)` before loading, else the column's minimum
      and maximum, which bound every present value. */
  function ValueRange(c: Container, col: string): (r: Result<(Value, Value)>)
    ensures c.claims.None? ==> r == Ok((Num(0.0), Num(0.0)))
    ensures c.claims.Some? && r.Ok? ==> col in c.claims.value.columns
    ensures c.claims.Some? && r.Ok? ==> var vals := ColumnValues(c.claims.value.rows, col);
      (r.value.0 == Null <==> forall i | 0 <= i < |vals| :: vals[i] == Null)
      && (r.value.1 == Null <==> forall i | 0 <= i < |vals| :: vals[i] == Null)
      && (r.value.0 != Null ==> r.value.0 in vals && r.value.1 in vals)
      && forall i | 0 <= i < |vals| && vals[i] != Null :: !Lt(vals[i], r.value.0) && !Lt(r.value.1, vals[i])
  {
    match c.claims
    case None => Ok((Num(0.0), Num(0.0)))
    case Some(f) =>
      if col !in f.columns then KeyError(col)
      else
        var vals := ColumnValues(f.rows, col);
        var lo := Extreme(vals, false);
        var hi := Extreme(vals, true);
        if lo.Raise? then Raise(lo.exc) else Ok((lo.value, hi.value))
  }

  // ------------------------------------------------------------ summarize

  const ClaimId := "claim_id"
  const PredictedPrice := "predicted_price"
  const Price := "price"

  /** The columns `summarize_prediction` keeps, in order. */
  const SummaryColumns := [ClaimId, "pet_id", "breed", "gender", "neutralized", "district", "age",
                           "weight", Price, "issued_at", PredictedPrice, DiffColumn, ErrorRate]

  /** The explicit prediction frame, else the container's. */
  function SummarySource(c: Container, predictions: Option<Frame>): Option<Frame> {
    if predictions.Some? then predictions else c.predictions
  }

  /** `summarize_prediction`: an empty frame without predictions; otherwise
      each claim is inner-merged with its prediction on `claim_id`, and the
      signed difference `predicted_price - price` and its ratio to `price`
      are added. */
  function Summarize(c: Container, claims: Frame, predictions: Option<Frame>): (r: Result<Frame>)
    ensures SummarySource(c, predictions).None? ==> r == Ok(Empty)
    ensures SummarySource(c, predictions).Some? && r.Ok? ==> r.value.columns == SummaryColumns
  {
    match SummarySource(c, predictions)
    case None => Ok(Empty)
    case Some(p) =>
      var sel :- SelectColumns(p, [ClaimId, PredictedPrice]);
      var merged :- InnerMerge(claims, sel, [ClaimId]);
      var g :- WithResidual(merged, PredictedPrice, Price, Price);
      SelectColumns(g, SummaryColumns)
  }

  /** No column of either frame is renamed onto `claim_id` by the merge. */
  lemma ClaimIdNameFree(lcols: seq<string>, rcols: seq<string>)
    ensures KeyNameFree(ClaimId, lcols, rcols)
  {
    forall c | c in lcols ensures c + "_x" != ClaimId {
      assert (c + "_x")[|c + "_x"| - 1] == 'x';
    }
    forall c | c in rcols ensures c + "_y" != ClaimId {
      assert (c + "_y")[|c + "_y"| - 1] == 'y';
    }
  }

  /** Record `i` of the merge belongs to a claim and to a prediction that
      share its `claim_id`. */
  lemma MergedRecord(claims: Frame, p: Frame, i: int)
    requires SelectColumns(p, [ClaimId, PredictedPrice]).Ok?
    requires InnerMerge(claims, SelectColumns(p, [ClaimId, PredictedPrice]).value, [ClaimId]).Ok?
    requires 0 <= i < |InnerMerge(claims, SelectColumns(p, [ClaimId, PredictedPrice]).value, [ClaimId]).value.rows|
    ensures var m := InnerMerge(claims, SelectColumns(p, [ClaimId, PredictedPrice]).value, [ClaimId]).value.rows[i];
      (exists l | l in claims.rows :: Cell(l, ClaimId) == Cell(m, ClaimId))
      && (exists j | 0 <= j < |p.rows| :: Cell(p.rows[j], ClaimId) == Cell(m, ClaimId))
  {
    var sel := SelectColumns(p, [ClaimId, PredictedPrice]).value;
    ClaimIdNameFree(claims.columns, sel.columns);
    MergeKeyCell(claims, sel, [ClaimId], i, ClaimId);
    var pair := Pairs(claims.rows, sel.rows, [ClaimId])[i];
    var j :| 0 <= j < |sel.rows| && sel.rows[j] == pair.1;
    assert Cell(p.rows[j], ClaimId) == Cell(sel.rows[j], ClaimId);
  }

  lemma SummaryColumnsKept()
    ensures ClaimId in SummaryColumns && PredictedPrice in SummaryColumns && Price in SummaryColumns
    ensures DiffColumn in SummaryColumns && ErrorRate in SummaryColumns
    ensures ClaimId != DiffColumn && ClaimId != ErrorRate
  {
  }

  /** Record `i` of the selected residual frame keeps the merged record's
      `claim_id` and relates its `diff` and `error_rate` to its prices. */
  lemma ResidualRecord(merged: Frame, i: int)
    requires WithResidual(merged, PredictedPrice, Price, Price).Ok?
    requires SelectColumns(WithResidual(merged, PredictedPrice, Price, Price).value, SummaryColumns).Ok?
    requires 0 <= i < |merged.rows|
    ensures var o := SelectColumns(WithResidual(merged, PredictedPrice, Price, Price).value, SummaryColumns).value.rows[i];
      Cell(o, ClaimId) == Cell(merged.rows[i], ClaimId)
      && Sub(Cell(o, PredictedPrice), Cell(o, Price)) == Ok(Cell(o, DiffColumn))
      && Div(Cell(o, DiffColumn), Cell(o, Price)) == Ok(Cell(o, ErrorRate))
  {
    SummaryColumnsKept();
    ResidualSelected(merged, PredictedPrice, Price, Price, SummaryColumns, i);
  }

  /** Record `i` of a summary belongs to a claim that has a prediction with
      the same `claim_id`, and its `diff` and `error_rate` are the
      prediction's error and that error relative to the actual price. */
  lemma SummarizeRecord(c: Container, claims: Frame, predictions: Option<Frame>, i: int)
    requires SummarySource(c, predictions).Some? && Summarize(c, claims, predictions).Ok?
    requires 0 <= i < |Summarize(c, claims, predictions).value.rows|
    ensures var p := SummarySource(c, predictions).value;
      var o := Summarize(c, claims, predictions).value.rows[i];
      (exists l | l in claims.rows :: Cell(l, ClaimId) == Cell(o, ClaimId))
      && (exists j | 0 <= j < |p.rows| :: Cell(p.rows[j], ClaimId) == Cell(o, ClaimId))
      && Sub(Cell(o, PredictedPrice), Cell(o, Price)) == Ok(Cell(o, DiffColumn))
      && Div(Cell(o, DiffColumn), Cell(o, Price)) == Ok(Cell(o, ErrorRate))
  {
    var p := SummarySource(c, predictions).value;
    var sel := SelectColumns(p, [ClaimId, PredictedPrice]).value;
    var merged := InnerMerge(claims, sel, [ClaimId]).value;
    ResidualRecord(merged, i);
    MergedRecord(claims, p, i);
  }

  /** Claims whose `claim_id` no prediction carries are left out of the summary. */
  lemma SummarizeDropsUnpredicted(c: Container, claims: Frame, predictions: Option<Frame>, id: Value)
    requires SummarySource(c, predictions).Some? && Summarize(c, claims, predictions).Ok?
    requires forall j | 0 <= j < |SummarySource(c, predictions).value.rows| ::
      Cell(SummarySource(c, predictions).value.rows[j], ClaimId) != id
    ensures forall o | o in Summarize(c, claims, predictions).value.rows :: Cell(o, ClaimId) != id
  {
    var rows := Summarize(c, claims, predictions).value.rows;
    forall o | o in rows ensures Cell(o, ClaimId) != id {
      var i :| 0 <= i < |rows| && rows[i] == o;
      SummarizeRecord(c, claims, predictions, i);
    }
  }
}
