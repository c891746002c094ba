/** What the dashboard and the BI service compute after an inner merge: the
  key cells of a merged record come from its matching pair, and the residual
  columns `diff` and `error_rate` are derived from two price columns. */
module Joins {
  import opened Wrappers
  import opened Frames

  const DiffColumn := "diff"
  const ErrorRate := "error_rate"

  /** `df["diff"] = df[minuend] - df[subtrahend]` then
      `df["error_rate"] = df["diff"] / df[base]`. */
  function WithResidual(f: Frame, minuend: string, subtrahend: string, base: string): (r: Result<Frame>)
    requires base != DiffColumn && base != ErrorRate
    ensures r.Ok? ==> minuend in f.columns && subtrahend in f.columns && base in f.columns
    ensures r.Ok? ==> |r.value.rows| == |f.rows| && DiffColumn in r.value.columns && ErrorRate in r.value.columns
    ensures r.Ok? ==> forall i | 0 <= i < |f.rows| ::
      Sub(Cell(f.rows[i], minuend), Cell(f.rows[i], subtrahend)) == Ok(Cell(r.value.rows[i], DiffColumn))
      && Div(Cell(r.value.rows[i], DiffColumn), Cell(f.rows[i], base)) == Ok(Cell(r.value.rows[i], ErrorRate))
    ensures r.Ok? ==> forall i, c | 0 <= i < |f.rows| && c != DiffColumn && c != ErrorRate ::
      Cell(r.value.rows[i], c) == Cell(f.rows[i], c)
  {
    var g :- Derive(f, DiffColumn, minuend, subtrahend, Sub);
    Derive(g, ErrorRate, DiffColumn, base, Div)
  }

  /** Record `i` of the residual frame, cut down to `cols`: its residual
      cells relate to its price cells as `WithResidual` promises, and every
      other kept cell is the input record's. */
  lemma ResidualSelected(f: Frame, minuend: string, subtrahend: string, base: string, cols: seq<string>, i: int)
    requires base != DiffColumn && base != ErrorRate
    requires minuend != DiffColumn && minuend != ErrorRate && subtrahend != DiffColumn && subtrahend != ErrorRate
    requires WithResidual(f, minuend, subtrahend, base).Ok?
    requires SelectColumns(WithResidual(f, minuend, subtrahend, base).value, cols).Ok?
    requires 0 <= i < |f.rows|
    requires minuend in cols && subtrahend in cols && base in cols && DiffColumn in cols && ErrorRate in cols
    ensures var o := SelectColumns(WithResidual(f, minuend, subtrahend, base).value, cols).value.rows[i];
      Sub(Cell(o, minuend), Cell(o, subtrahend)) == Ok(Cell(o, DiffColumn))
      && Div(Cell(o, DiffColumn), Cell(o, base)) == Ok(Cell(o, ErrorRate))
    ensures var o := SelectColumns(WithResidual(f, minuend, subtrahend, base).value, cols).value.rows[i];
      forall c | c in cols && c != DiffColumn && c != ErrorRate :: Cell(o, c) == Cell(f.rows[i], c)
  {
  }

  /** A name no column is renamed to keeps the accumulator's cell. */
  lemma {:induction false} PutOther(acc: Row, src: Row, cols: seq<string>, rename: string -> string, name: string)
    requires forall c | c in cols :: rename(c) != name
    ensures Cell(Put(acc, src, cols, rename), name) == Cell(acc, name)
    decreases cols
  {
    if cols != [] {
      PutOther(acc[rename(cols[0]) := Cell(src, cols[0])], src, cols[1..], rename, name);
    }
  }

  /** A name only `k` is renamed to holds `k`'s cell. */
  lemma {:induction false} PutCell(acc: Row, src: Row, cols: seq<string>, rename: string -> string, k: string, name: string)
    requires k in cols && forall c | c in cols && rename(c) == name :: c == k
    requires rename(k) == name
    ensures Cell(Put(acc, src, cols, rename), name) == Cell(src, k)
    decreases cols
  {
    var next := acc[rename(cols[0]) := Cell(src, cols[0])];
    if k in cols[1..] {
      PutCell(next, src, cols[1..], rename, k, name);
    } else {
      assert cols[0] == k;
      PutOther(next, src, cols[1..], rename, name);
    }
  }

  /** No left column is renamed onto `k` and no right column either. */
  predicate KeyNameFree(k: string, lcols: seq<string>, rcols: seq<string>) {
    (forall c | c in lcols :: c + "_x" != k) && (forall c | c in rcols :: c + "_y" != k)
  }

  /** A key cell of a combined record is the left record's, which equals the
      right record's for a matching pair. */
  lemma CombineKey(l: Row, r: Row, lcols: seq<string>, rcols: seq<string>, on: seq<string>, k: string)
    requires k in on && k in lcols && KeyNameFree(k, lcols, rcols)
    ensures Cell(Combine(l, r, lcols, rcols, on), k) == Cell(l, k)
  {
    var ln := (c: string) => LeftName(c, rcols, on);
    var rn := (c: string) => RightName(c, lcols);
    var left := Put(map[], l, lcols, ln);
    PutCell(map[], l, lcols, ln, k, k);
    var rc := RightColumns(rcols, on);
    assert forall c | c in rc :: rn(c) != k;
    PutOther(left, r, rc, rn, k);
  }

  /** Record `i` of an inner merge carries, in each key column, the value
      both records of its matching pair hold. */
  lemma MergeKeyCell(left: Frame, right: Frame, on: seq<string>, i: int, k: string)
    requires InnerMerge(left, right, on).Ok? && 0 <= i < |InnerMerge(left, right, on).value.rows|
    requires k in on && KeyNameFree(k, left.columns, right.columns)
    ensures |InnerMerge(left, right, on).value.rows| == |Pairs(left.rows, right.rows, on)|
    ensures var p := Pairs(left.rows, right.rows, on)[i];
      p.0 in left.rows && p.1 in right.rows
      && Cell(InnerMerge(left, right, on).value.rows[i], k) == Cell(p.0, k) == Cell(p.1, k)
  {
    var ps := Pairs(left.rows, right.rows, on);
    PairsSpec(left.rows, right.rows, on);
    assert ps[i] in ps;
    assert k in left.columns;
    CombineKey(ps[i].0, ps[i].1, left.columns, right.columns, on, k);
  }
}
