/** The dashboard controller: which dates it offers, and loading one date's
  claims and every model's predictions for that date into the container.

  The file system is a parameter: each file's `read_csv` outcome and each
  directory's listing. A path exists when it is a file or a directory.
 */
module DashboardController {
  import opened Wrappers
  import opened Text
  import opened Seqs
  import opened Frames
  import opened DashboardContainer
  import opened DashboardServices
  import Calendar

  /** The two directories of the dashboard's settings. */
  datatype Settings = Settings(recordsDir: string, predictionDir: string)

  datatype Fs = Fs(files: map<string, Result<Frame>>, dirs: map<string, seq<string>>)

  predicate Exists(fs: Fs, p: string) {
    p in fs.files || p in fs.dirs
  }

  // ------------------------------------------------------------ dates

  /** `re.match(r'\d{4}-\d{2}-\d{2}', f)`: the name starts with a date. */
  predicate DatePrefix(f: string) {
    |f| >= 10 && AllDigits(f[0..4]) && f[4] == '-' && AllDigits(f[5..7]) && f[7] == '-' && AllDigits(f[8..10])
  }

  /** The names in `dir` that are directories named after a date. */
  function DateFolders(fs: Fs, dir: string): (r: seq<string>)
    requires dir in fs.dirs
    ensures forall f | f in r :: f in fs.dirs[dir] && DatePrefix(f) && Join(dir, f) in fs.dirs
    ensures forall f | f in fs.dirs[dir] && DatePrefix(f) && Join(dir, f) in fs.dirs :: f in r
  {
    var keep := (f: string) => Join(dir, f) in fs.dirs && DatePrefix(f);
    FilterSpec(fs.dirs[dir], keep);
    Filter(fs.dirs[dir], keep)
  }

  /** No string comes after an earlier one. */
  predicate Descending(s: seq<string>) {
    forall i, j | 0 <= i < j < |s| :: !LexLess(s[i], s[j])
  }

  /** Inserts `x` before the first element smaller than it. */
  function Insert(x: string, s: seq<string>): seq<string> {
    if s == [] then [x]
    else if LexLess(s[0], x) then [x] + s
    else [s[0]] + Insert(x, s[1..])
  }

  /** `sorted(s, reverse=True)` on strings. */
  function SortDescending(s: seq<string>): seq<string> {
    if s == [] then [] else Insert(s[0], SortDescending(s[1..]))
  }

  /** Prefixing an element no later element exceeds keeps the order. */
  lemma DescendingCons(h: string, t: seq<string>)
    requires Descending(t) && forall k | 0 <= k < |t| :: !LexLess(h, t[k])
    ensures Descending([h] + t)
  {
    var r := [h] + t;
    forall i, j | 0 <= i < j < |r| ensures !LexLess(r[i], r[j]) {
      assert r[j] == t[j - 1];
      if i > 0 { assert r[i] == t[i - 1]; }
    }
  }

  lemma DescendingTail(s: seq<string>)
    requires Descending(s) && s != []
    ensures Descending(s[1..]) && forall k | 0 <= k < |s[1..]| :: !LexLess(s[0], s[1..][k])
  {
    forall i, j | 0 <= i < j < |s[1..]| ensures !LexLess(s[1..][i], s[1..][j]) {
      assert s[1..][i] == s[i + 1] && s[1..][j] == s[j + 1];
    }
    forall k | 0 <= k < |s[1..]| ensures !LexLess(s[0], s[1..][k]) {
      assert s[1..][k] == s[k + 1];
    }
  }

  /** "Not smaller" is transitive. */
  lemma NotLessTransitive(a: string, b: string, c: string)
    requires !LexLess(a, b) && !LexLess(b, c)
    ensures !LexLess(a, c)
  {
    if LexLess(a, c) {
      LexTotal(a, b);
      if a == b {
      } else {
        LexTransitive(b, a, c);
      }
    }
  }

  lemma {:induction false} InsertMultiset(x: string, s: seq<string>)
    ensures multiset(Insert(x, s)) == multiset(s) + multiset{x}
    decreases |s|
  {
    if s != [] && !LexLess(s[0], x) {
      InsertMultiset(x, s[1..]);
      assert s == [s[0]] + s[1..];
    }
  }

  lemma {:induction false} InsertDescending(x: string, s: seq<string>)
    requires Descending(s)
    ensures Descending(Insert(x, s))
    decreases |s|
  {
    if s == [] {
    } else if LexLess(s[0], x) {
      LexAsymmetric(s[0], x);
      forall k | 0 <= k < |s| ensures !LexLess(x, s[k]) {
        if k > 0 { NotLessTransitive(x, s[0], s[k]); }
      }
      DescendingCons(x, s);
    } else {
      DescendingTail(s);
      InsertDescending(x, s[1..]);
      InsertMultiset(x, s[1..]);
      var t := Insert(x, s[1..]);
      forall k | 0 <= k < |t| ensures !LexLess(s[0], t[k]) {
        assert t[k] in multiset(s[1..]) + multiset{x};
        if t[k] != x {
          var i :| 0 <= i < |s[1..]| && s[1..][i] == t[k];
        }
      }
      DescendingCons(s[0], t);
    }
  }

  /** Sorting gives a descending permutation of its input. */
  lemma {:induction false} SortDescendingSpec(s: seq<string>)
    ensures Descending(SortDescending(s))
    ensures multiset(SortDescending(s)) == multiset(s)
    decreases |s|
  {
    if s != [] {
      SortDescendingSpec(s[1..]);
      InsertDescending(s[0], SortDescending(s[1..]));
      InsertMultiset(s[0], SortDescending(s[1..]));
      assert s == [s[0]] + s[1..];
    }
  }

  /** `_load_available_dates`: the date folders of the records directory,
      newest first; `[]` when the directory cannot be listed. */
  function LoadAvailableDates(c: Container, fs: Fs, settings: Settings): (r: Container)
    ensures settings.recordsDir !in fs.dirs ==> r.availableDates == []
    ensures settings.recordsDir in fs.dirs ==>
      Descending(r.availableDates) && multiset(r.availableDates) == multiset(DateFolders(fs, settings.recordsDir))
    ensures settings.recordsDir in fs.dirs ==>
      forall d | d in r.availableDates :: DatePrefix(d) && Join(settings.recordsDir, d) in fs.dirs
    ensures r == c.(availableDates := r.availableDates)
  {
    if settings.recordsDir !in fs.dirs then c.(availableDates := [])
    else
      var dates := DateFolders(fs, settings.recordsDir);
      SortDescendingSpec(dates);
      assert forall d | d in SortDescending(dates) :: d in multiset(dates);
      c.(availableDates := SortDescending(dates))
  }

  /** `initialize_container`: a fresh container with the dates filled in. */
  function InitializeContainer(fs: Fs, settings: Settings): (r: Container)
    ensures r.claims.None? && r.predictions.None? && r.selectedDate.None? && r.modelData == map[]
    ensures settings.recordsDir in fs.dirs ==>
      forall d | d in r.availableDates :: DatePrefix(d) && Join(settings.recordsDir, d) in fs.dirs
  {
    LoadAvailableDates(Initial, fs, settings)
  }

  /** A folder named after a date as `%Y-%m-%d` prints it counts as a date,
      whatever follows the date. */
  lemma DatePrefixOfPrinted(t: Calendar.PyDateTime, suffix: string)
    ensures DatePrefix(Calendar.Print(t, Calendar.DateFormat) + suffix)
  {
    var f := Calendar.FieldsOf(t);
    var y := Calendar.RenderToken(f, Calendar.Year);
    var m := Calendar.RenderToken(f, Calendar.Month);
    var d := Calendar.RenderToken(f, Calendar.Day);
    var fmt := Calendar.DateFormat;
    var f4 := [Calendar.Day];
    var f3 := [Calendar.Lit('-')] + f4;
    var f2 := [Calendar.Month] + f3;
    var f1 := [Calendar.Lit('-')] + f2;
    assert fmt == [Calendar.Year] + f1;
    assert Calendar.Render(f, f4) == d + Calendar.Render(f, []);
    assert Calendar.Render(f, f3) == "-" + Calendar.Render(f, f4) by { assert f3[1..] == f4; }
    assert Calendar.Render(f, f2) == m + Calendar.Render(f, f3) by { assert f2[1..] == f3; }
    assert Calendar.Render(f, f1) == "-" + Calendar.Render(f, f2) by { assert f1[1..] == f2; }
    assert Calendar.Render(f, fmt) == y + Calendar.Render(f, f1) by { assert fmt[1..] == f1; }
    var s := Calendar.Print(t, fmt) + suffix;
    assert s[0..4] == y && s[5..7] == m && s[8..10] == d;
  }

  // ------------------------------------------------------------ claims

  function ClaimFile(settings: Settings, date: string): string {
    Join(Join(settings.recordsDir, date), "insurance_claim.csv")
  }

  /** `load_insurance_claim_data`: `true` exactly when the date's claim file
      is read, and then the claims and the selected date are set; any
      failure leaves the container as it was. */
  function LoadClaims(c: Container, fs: Fs, settings: Settings, date: string): (r: (Container, bool))
    ensures r.1 <==> ClaimFile(settings, date) in fs.files && fs.files[ClaimFile(settings, date)].Ok?
    ensures r.1 ==> r.0.claims == Some(fs.files[ClaimFile(settings, date)].value) && r.0.selectedDate == Some(date)
    ensures r.1 ==> r.0.predictions == c.predictions && r.0.availableDates == c.availableDates && r.0.modelData == c.modelData
    ensures !r.1 ==> r.0 == c
  {
    var path := ClaimFile(settings, date);
    if path in fs.files && fs.files[path].Ok? then
      (SetClaims(c, fs.files[path].value).(selectedDate := Some(date)), true)
    else
      (c, false)
  }

  // ------------------------------------------------------------ models

  function PredictionDir(settings: Settings, date: string): string {
    Join(settings.predictionDir, date)
  }

  function PredictionFile(dir: string, model: string): string {
    Join(Join(dir, model), "prediction.csv")
  }

  /** The sub-directories of a prediction directory, one per model. */
  function ModelFolders(fs: Fs, dir: string): (r: seq<string>)
    requires dir in fs.dirs
    ensures forall m :: m in r <==> m in fs.dirs[dir] && Join(dir, m) in fs.dirs
  {
    var isDir := (m: string) => Join(dir, m) in fs.dirs;
    FilterSpec(fs.dirs[dir], isDir);
    Filter(fs.dirs[dir], isDir)
  }

  /** The model's predictions, when its file reads. */
  function ModelPredictions(fs: Fs, dir: string, model: string): Option<Frame> {
    var path := PredictionFile(dir, model);
    if path in fs.files && fs.files[path].Ok? then Some(fs.files[path].value) else None
  }

  /** The comparison frame stored for a model, when its file reads and its
      summary succeeds. */
  function Comparison(fs: Fs, dir: string, model: string, claims: Frame): Option<Frame> {
    match ModelPredictions(fs, dir, model)
    case None => None
    case Some(df) =>
      var s := Summarize(Initial, claims, Some(df));
      if s.Ok? then Some(s.value) else None
  }

  /** With explicit predictions the container plays no part in the summary. */
  lemma SummarizeIgnoresContainer(a: Container, b: Container, claims: Frame, df: Frame)
    ensures Summarize(a, claims, Some(df)) == Summarize(b, claims, Some(df))
  {
  }

  /** One iteration of the model loop. The first folder's predictions
      become the container's; with claims loaded, a successful comparison is
      stored under the model's name. Failures are logged and skipped. */
  function LoadModel(c: Container, fs: Fs, dir: string, model: string, first: string): (r: Container)
    ensures r.claims == c.claims && r.selectedDate == c.selectedDate && r.availableDates == c.availableDates
    ensures r.predictions == if model == first && ModelPredictions(fs, dir, model).Some? then ModelPredictions(fs, dir, model) else c.predictions
    ensures r.modelData == if c.claims.Some? && Comparison(fs, dir, model, c.claims.value).Some?
      then c.modelData[model := Comparison(fs, dir, model, c.claims.value).value] else c.modelData
  {
    match ModelPredictions(fs, dir, model)
    case None => c
    case Some(df) =>
      var c1 := if model == first then SetPredictions(c, df) else c;
      if c1.claims.None? then c1
      else
        SummarizeIgnoresContainer(c1, Initial, c1.claims.value, df);
        var s := Summarize(c1, c1.claims.value, Some(df));
        if s.Ok? then AddModelData(c1, model, s.value) else c1
  }

  /** The model loop over `models`. */
  function LoadModels(c: Container, fs: Fs, dir: string, models: seq<string>, first: string): (r: Container)
    ensures r.claims == c.claims && r.selectedDate == c.selectedDate && r.availableDates == c.availableDates
    decreases |models|
  {
    if models == [] then c
    else LoadModels(LoadModel(c, fs, dir, models[0], first), fs, dir, models[1..], first)
  }

  /** The loop adds exactly the models whose comparison succeeds, each
      under its own name, and sets the first model's predictions. */
  lemma {:induction false} LoadModelsSpec(c: Container, fs: Fs, dir: string, models: seq<string>, first: string)
    ensures var r := LoadModels(c, fs, dir, models, first);
      forall m :: m in r.modelData <==>
        m in c.modelData || (c.claims.Some? && m in models && Comparison(fs, dir, m, c.claims.value).Some?)
    ensures var r := LoadModels(c, fs, dir, models, first);
      forall m | m in r.modelData ::
        r.modelData[m] == if c.claims.Some? && m in models && Comparison(fs, dir, m, c.claims.value).Some?
          then Comparison(fs, dir, m, c.claims.value).value else c.modelData[m]
    ensures LoadModels(c, fs, dir, models, first).predictions ==
      if first in models && ModelPredictions(fs, dir, first).Some? then ModelPredictions(fs, dir, first) else c.predictions
    decreases |models|
  {
    if models != [] {
      assert forall m :: m in models <==> m == models[0] || m in models[1..];
      LoadModelsSpec(LoadModel(c, fs, dir, models[0], first), fs, dir, models[1..], first);
    }
  }

  /** `load_prediction_models`: `false` with the container untouched when
      the date's prediction directory is missing, is not a directory or has
      no model folder; otherwise the model data is replaced by the
      comparisons that succeed, and the answer is whether there is one. */
  function LoadPredictionModels(c: Container, fs: Fs, settings: Settings, date: string): (r: (Container, bool))
    ensures var dir := PredictionDir(settings, date);
      dir !in fs.dirs || ModelFolders(fs, dir) == [] ==> r == (c, false)
    ensures r.0.claims == c.claims && r.0.selectedDate == c.selectedDate && r.0.availableDates == c.availableDates
    ensures var dir := PredictionDir(settings, date);
      dir in fs.dirs && ModelFolders(fs, dir) != [] ==> (r.1 <==> r.0.modelData != map[])
    ensures r.1 ==> r.0.modelData != map[]
  {
    var dir := PredictionDir(settings, date);
    if !Exists(fs, dir) || dir !in fs.dirs then (c, false)
    else
      var models := ModelFolders(fs, dir);
      if models == [] then (c, false)
      else
        var loaded := LoadModels(ClearModelData(c), fs, dir, models, models[0]);
        (loaded, loaded.modelData != map[])
  }

  /** After a load that reaches the model folders, the model data holds
      exactly the models whose comparison succeeds, each with its comparison. */
  lemma LoadPredictionModelsSpec(c: Container, fs: Fs, settings: Settings, date: string)
    requires PredictionDir(settings, date) in fs.dirs && ModelFolders(fs, PredictionDir(settings, date)) != []
    ensures var dir := PredictionDir(settings, date);
      var r := LoadPredictionModels(c, fs, settings, date).0;
      forall m :: m in r.modelData <==>
        c.claims.Some? && m in ModelFolders(fs, dir) && Comparison(fs, dir, m, c.claims.value).Some?
    ensures var dir := PredictionDir(settings, date);
      var r := LoadPredictionModels(c, fs, settings, date).0;
      forall m | m in r.modelData :: c.claims.Some? && Some(r.modelData[m]) == Comparison(fs, dir, m, c.claims.value)
  {
    var dir := PredictionDir(settings, date);
    var models := ModelFolders(fs, dir);
    var cleared := ClearModelData(c);
    assert forall m :: m !in cleared.modelData by {
      forall m ensures m !in cleared.modelData {
        assert GetModelData(cleared, m) == None;
      }
    }
    assert LoadPredictionModels(c, fs, settings, date).0 == LoadModels(cleared, fs, dir, models, models[0]);
    LoadModelsSpec(cleared, fs, dir, models, models[0]);
  }

  /** Without claims no model is compared, so loading predictions reports failure. */
  lemma NoClaimsNoModels(c: Container, fs: Fs, settings: Settings, date: string)
    requires c.claims.None?
    ensures !LoadPredictionModels(c, fs, settings, date).1
  {
    var dir := PredictionDir(settings, date);
    if dir in fs.dirs && ModelFolders(fs, dir) != [] {
      LoadPredictionModelsSpec(c, fs, settings, date);
      var r := LoadPredictionModels(c, fs, settings, date).0;
      assert r.modelData == map[];
    }
  }

  /** A successful load offers a comparison for some model folder. */
  lemma LoadedModelExists(c: Container, fs: Fs, settings: Settings, date: string)
    requires LoadPredictionModels(c, fs, settings, date).1
    ensures var dir := PredictionDir(settings, date);
      c.claims.Some? && dir in fs.dirs
      && exists m | m in ModelFolders(fs, dir) :: Comparison(fs, dir, m, c.claims.value).Some?
  {
    var dir := PredictionDir(settings, date);
    if dir in fs.dirs && ModelFolders(fs, dir) != [] {
      LoadPredictionModelsSpec(c, fs, settings, date);
      var r := LoadPredictionModels(c, fs, settings, date).0;
      var m :| m in r.modelData;
    } else {
      assert false;
    }
  }

  /** The first model folder's predictions become the container's. */
  lemma FirstModelPredictions(c: Container, fs: Fs, settings: Settings, date: string)
    requires PredictionDir(settings, date) in fs.dirs && ModelFolders(fs, PredictionDir(settings, date)) != []
    ensures var dir := PredictionDir(settings, date);
      var first := ModelFolders(fs, dir)[0];
      LoadPredictionModels(c, fs, settings, date).0.predictions ==
        if ModelPredictions(fs, dir, first).Some? then ModelPredictions(fs, dir, first) else c.predictions
  {
    var dir := PredictionDir(settings, date);
    var models := ModelFolders(fs, dir);
    assert LoadPredictionModels(c, fs, settings, date).0 == LoadModels(ClearModelData(c), fs, dir, models, models[0]);
    LoadModelsSpec(ClearModelData(c), fs, dir, models, models[0]);
  }
}
