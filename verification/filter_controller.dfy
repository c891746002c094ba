/** The dashboard's filter controller: the options offered per variable and
  the application of the chosen filters to a frame. */
module FilterController {
  import opened Wrappers
  import opened Seqs
  import opened Frames
  import opened DashboardContainer
  import opened DashboardServices

  const NumericType := "numeric"
  const CategoryType := "category"

  /** A slider over `(lo, hi)` or a choice among `values`. */
  datatype FilterOption = NumericOption(name: string, lo: Value, hi: Value) | CategoryOption(name: string, values: seq<Value>)

  /** `_get_numeric_filter_option`: the column's range, `(0, 0)` before loading. */
  function NumericFilterOption(c: Container, name: string): (r: Result<FilterOption>)
    ensures r.Ok? ==> r.value.NumericOption? && r.value.name == name
    ensures r.Ok? <==> ValueRange(c, name).Ok?
    ensures r.Ok? ==> (r.value.lo, r.value.hi) == ValueRange(c, name).value
  {
    var range :- ValueRange(c, name);
    Ok(NumericOption(name, range.0, range.1))
  }

  /** `_get_category_filter_option`: the column's distinct values followed
      by "ALL", or just "ALL" before loading. */
  function CategoryFilterOption(c: Container, name: string): (r: Result<FilterOption>)
    ensures c.claims.None? ==> r == Ok(CategoryOption(name, [Str("ALL")]))
    ensures r.Ok? ==> r.value.CategoryOption? && r.value.name == name
    ensures r.Ok? ==> |r.value.values| >= 1 && r.value.values[|r.value.values| - 1] == Str("ALL")
    ensures r.Ok? && c.claims.Some? ==> forall v | v in ColumnValues(c.claims.value.rows, name) :: v in r.value.values
    ensures r.Ok? && c.claims.Some? ==> forall v | v in r.value.values :: v == Str("ALL") || v in ColumnValues(c.claims.value.rows, name)
    ensures r.Ok? && c.claims.Some? ==> FirstOccurrences(r.value.values[..|r.value.values| - 1], ColumnValues(c.claims.value.rows, name))
  {
    var values :- UniqueValues(c, name);
    assert c.claims.None? ==> values + [Str("ALL")] == [Str("ALL")];
    Ok(CategoryOption(name, values + [Str("ALL")]))
  }

  /** A variable type the controller offers an option for. */
  predicate Supported(v: (string, string)) {
    v.1 == NumericType || v.1 == CategoryType
  }

  /** The option one supported variable yields. */
  function OptionOf(c: Container, v: (string, string)): Result<FilterOption>
    requires Supported(v)
  {
    if v.1 == NumericType then NumericFilterOption(c, v.0) else CategoryFilterOption(c, v.0)
  }

  /** `get_filter_options`: one option per supported variable, in order;
      other types are skipped. Variables are visited front to back, so the
      first failing option's exception is the one raised. */
  function FilterOptions(c: Container, vars: seq<(string, string)>): (r: Result<seq<FilterOption>>)
    decreases |vars|
  {
    if vars == [] then Ok([])
    else
      var (name, kind) := vars[0];
      if kind == NumericType then
        var o :- NumericFilterOption(c, name);
        var rest :- FilterOptions(c, vars[1..]);
        Ok([o] + rest)
      else if kind == CategoryType then
        var o :- CategoryFilterOption(c, name);
        var rest :- FilterOptions(c, vars[1..]);
        Ok([o] + rest)
      else FilterOptions(c, vars[1..])
  }

  /** One step of `get_filter_options`: the head's option is asked for
      before any later variable's. */
  lemma FilterOptionsStep(c: Container, vars: seq<(string, string)>)
    requires vars != []
    ensures Supported(vars[0]) && OptionOf(c, vars[0]).Raise? ==>
      FilterOptions(c, vars).Raise? && FilterOptions(c, vars).exc == OptionOf(c, vars[0]).exc
    ensures Supported(vars[0]) && OptionOf(c, vars[0]).Ok? && FilterOptions(c, vars[1..]).Raise? ==>
      FilterOptions(c, vars).Raise? && FilterOptions(c, vars).exc == FilterOptions(c, vars[1..]).exc
    ensures FilterOptions(c, vars[1..]).Ok? && (Supported(vars[0]) ==> OptionOf(c, vars[0]).Ok?) ==> FilterOptions(c, vars).Ok?
  {
  }

  /** `get_filter_options` raises exactly when some supported variable's
      option raises. */
  lemma {:induction false} FilterOptionsRaises(c: Container, vars: seq<(string, string)>)
    ensures FilterOptions(c, vars).Raise? <==> exists i | 0 <= i < |vars| :: Supported(vars[i]) && OptionOf(c, vars[i]).Raise?
    decreases |vars|
  {
    if vars != [] {
      var tail := vars[1..];
      FilterOptionsRaises(c, tail);
      FilterOptionsStep(c, vars);
      if exists i | 0 <= i < |vars| :: Supported(vars[i]) && OptionOf(c, vars[i]).Raise? {
        var i :| 0 <= i < |vars| && Supported(vars[i]) && OptionOf(c, vars[i]).Raise?;
        if i > 0 {
          assert tail[i - 1] == vars[i];
        }
      }
      if exists i | 0 <= i < |tail| :: Supported(tail[i]) && OptionOf(c, tail[i]).Raise? {
        var i :| 0 <= i < |tail| && Supported(tail[i]) && OptionOf(c, tail[i]).Raise?;
        assert vars[i + 1] == tail[i];
      }
    }
  }

  /** The exception raised is that of the first supported variable whose
      option raises. */
  lemma {:induction false} FilterOptionsRaisesFirst(c: Container, vars: seq<(string, string)>, i: int)
    requires 0 <= i < |vars| && Supported(vars[i]) && OptionOf(c, vars[i]).Raise?
    requires forall j | 0 <= j < i && Supported(vars[j]) :: OptionOf(c, vars[j]).Ok?
    ensures FilterOptions(c, vars).Raise? && FilterOptions(c, vars).exc == OptionOf(c, vars[i]).exc
    decreases |vars|
  {
    FilterOptionsStep(c, vars);
    if i > 0 {
      var tail := vars[1..];
      forall j | 0 <= j < i - 1 && Supported(tail[j]) ensures OptionOf(c, tail[j]).Ok? {
        assert tail[j] == vars[j + 1];
      }
      FilterOptionsRaisesFirst(c, tail, i - 1);
    }
  }

  /** Option `o` is the one offered for variable `v`: same name, a range
      exactly for "numeric". */
  predicate OptionFor(o: FilterOption, v: (string, string)) {
    o.name == v.0 && (o.NumericOption? <==> v.1 == NumericType)
  }

  /** The options follow the supported variables one for one. */
  lemma {:induction false} FilterOptionsSpec(c: Container, vars: seq<(string, string)>)
    requires FilterOptions(c, vars).Ok?
    ensures |FilterOptions(c, vars).value| == |Filter(vars, Supported)|
    ensures forall i | 0 <= i < |FilterOptions(c, vars).value| :: OptionFor(FilterOptions(c, vars).value[i], Filter(vars, Supported)[i])
    decreases |vars|
  {
    if vars != [] {
      FilterOptionsSpec(c, vars[1..]);
      var opts := FilterOptions(c, vars).value;
      var rest := FilterOptions(c, vars[1..]).value;
      var sup := Filter(vars, Supported);
      var supRest := Filter(vars[1..], Supported);
      if Supported(vars[0]) {
        assert sup == [vars[0]] + supRest;
        assert opts == [opts[0]] + rest;
        assert OptionFor(opts[0], vars[0]);
        ConsAligned(opts[0], vars[0], rest, supRest);
      } else {
        assert sup == supRest;
        assert opts == rest;
      }
    }
  }

  lemma ConsAligned(o: FilterOption, v: (string, string), opts: seq<FilterOption>, vars: seq<(string, string)>)
    requires OptionFor(o, v) && |opts| == |vars|
    requires forall i | 0 <= i < |opts| :: OptionFor(opts[i], vars[i])
    ensures forall i | 0 <= i < |opts| + 1 :: OptionFor(([o] + opts)[i], ([v] + vars)[i])
  {
    forall i | 0 <= i < |opts| + 1 ensures OptionFor(([o] + opts)[i], ([v] + vars)[i]) {
      if i > 0 {
        assert ([o] + opts)[i] == opts[i - 1] && ([v] + vars)[i] == vars[i - 1];
      }
    }
  }

  /** How `apply_filters` turns one pair into a step: "ALL" is skipped, any
      two-element tuple is an inclusive range on its column, and anything
      else is compared for equality. */
  function ControllerStep(name: string, sel: Selection): (r: Step)
    ensures sel == All ==> r == Skip
    ensures sel.Pair? ==> r == Apply(Within(name, sel.lo, sel.hi))
    ensures sel != All && !sel.Pair? ==> r == Apply(Equals(name, Selected(sel)))
  {
    if sel == All then Skip
    else if sel.Pair? then Apply(Within(name, sel.lo, sel.hi))
    else Apply(Equals(name, Selected(sel)))
  }

  function ControllerSteps(filters: seq<(string, Selection)>): (r: seq<Step>)
    ensures |r| == |filters| && forall i | 0 <= i < |filters| :: r[i] == ControllerStep(filters[i].0, filters[i].1)
  {
    MapSeq(filters, (p: (string, Selection)) => ControllerStep(p.0, p.1))
  }

  /** `apply_filters`: `None` stays `None`; otherwise the filters are applied in order. */
  function ApplyFilters(df: Option<Frame>, filters: seq<(string, Selection)>): (r: Result<Option<Frame>>)
    ensures df.None? ==> r == Ok(None)
    ensures df.Some? && r.Ok? ==> r.value.Some? && r.value.value.columns == df.value.columns
  {
    match df
    case None => Ok(None)
    case Some(f) =>
      var g :- RunSteps(f, ControllerSteps(filters));
      Ok(Some(g))
  }

  /** A successful application keeps, in order, exactly the records that
      pass every filter. */
  lemma ApplyFiltersSpec(f: Frame, filters: seq<(string, Selection)>)
    requires ApplyFilters(Some(f), filters).Ok?
    ensures var g := ApplyFilters(Some(f), filters).value.value;
      g.rows == Filter(f.rows, row => PassesAll(row, ControllerSteps(filters)))
      && IsSubseq(g.rows, f.rows)
  {
    RunStepsSpec(f, ControllerSteps(filters));
    FilterSpec(f.rows, row => PassesAll(row, ControllerSteps(filters)));
  }

  /** The controller and the services agree on a selection that is a range
      exactly when it is on `age`. */
  predicate Agreeing(p: (string, Selection)) {
    p.1 == All || (p.0 == "age" <==> p.1.Pair?)
  }

  /** When every selection is agreeing, `apply_filters` gives what the
      services' `retrieve` gives. */
  lemma ControllerMatchesServices(f: Frame, filters: seq<(string, Selection)>)
    requires forall i | 0 <= i < |filters| :: Agreeing(filters[i])
    ensures ApplyFilters(Some(f), filters) == Retrieve(Some(f), Some(filters))
  {
    assert ControllerSteps(filters) == ServiceSteps(filters);
  }
}
