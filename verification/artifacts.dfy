/** Artifact version resolution: `glob_recursive` and `find_latest_file`
  (backend/utils.py and pipeline/src/models/models.py, recursive) and the
  flat `find_latest_file` of datapipeline/src/models/models.py.

  The directory walk is an input: a sequence of `os.walk` steps (recursive
  copies) or the listing of one folder (flat copy), in traversal order.
 */
module Artifacts {
  import opened Wrappers
  import opened Text
  import opened Calendar
  import opened Seqs
  import opened Paths

  /** The name every trained artifact starts with, and that is stripped
      before the timestamp is parsed. */
  const ModelPrefix := "light_gbm_regression_"

  /** One step of `os.walk`: a directory, its sub-directories and its files. */
  datatype WalkStep = WalkStep(root: string, dirs: seq<string>, files: seq<string>)

  /** `fnmatch(path, "*light_gbm_regression_*." + ext)`: the pattern is matched
      against the full path and `*` matches any run of characters, '/' too. */
  predicate MatchesPattern(path: string, ext: string) {
    var suffix := "." + ext;
    |path| >= |ModelPrefix| + |suffix| && EndsWith(path, suffix)
    && exists i | 0 <= i <= |path| - |suffix| - |ModelPrefix| :: OccursAt(path, ModelPrefix, i)
  }

  /** The full paths one step contributes, files before sub-directories. */
  function StepPaths(step: WalkStep): (r: seq<string>)
    ensures |r| == |step.files| + |step.dirs|
  {
    MapSeq(step.files + step.dirs, (n: string) => Join(step.root, n))
  }

  /** The full paths a walk visits, in traversal order. */
  function Visited(walk: seq<WalkStep>): seq<string> {
    Flatten(MapSeq(walk, StepPaths))
  }

  lemma VisitedMember(walk: seq<WalkStep>, k: int, n: string)
    requires 0 <= k < |walk| && (n in walk[k].files || n in walk[k].dirs)
    ensures Join(walk[k].root, n) in Visited(walk)
  {
    var names := walk[k].files + walk[k].dirs;
    assert n in names;
    var j :| 0 <= j < |names| && names[j] == n;
    var parts := MapSeq(walk, StepPaths);
    assert parts[k] == StepPaths(walk[k]);
    assert parts[k][j] == Join(walk[k].root, n);
    FlattenMember(parts, Join(walk[k].root, n));
  }

  /** `glob_recursive(dirname, pattern)` for the artifact pattern. */
  function GlobRecursive(walk: seq<WalkStep>, ext: string): seq<string> {
    Filter(Visited(walk), (p: string) => MatchesPattern(p, ext))
  }

  /** Exactly the visited paths that match, files and directories alike, in
      traversal order. */
  lemma GlobRecursiveSpec(walk: seq<WalkStep>, ext: string)
    ensures IsSubseq(GlobRecursive(walk, ext), Visited(walk))
    ensures forall p | p in GlobRecursive(walk, ext) :: MatchesPattern(p, ext)
    ensures forall k, n | 0 <= k < |walk| && (n in walk[k].files || n in walk[k].dirs) && MatchesPattern(Join(walk[k].root, n), ext) ::
      Join(walk[k].root, n) in GlobRecursive(walk, ext)
  {
    FilterSpec(Visited(walk), (p: string) => MatchesPattern(p, ext));
    forall k, n | 0 <= k < |walk| && (n in walk[k].files || n in walk[k].dirs) && MatchesPattern(Join(walk[k].root, n), ext)
      ensures Join(walk[k].root, n) in GlobRecursive(walk, ext)
    {
      VisitedMember(walk, k, n);
    }
  }

  /** The timestamp `find_latest_file` reads from a path: the basename with
      every `light_gbm_regression_` removed and the last extension stripped,
      parsed as `%Y%m%d_%H%M%S`. */
  function StampOf(path: string): Result<PyDateTime> {
    Parse(SplitExt(RemoveAll(Basename(path), ModelPrefix)).0, StampFormat)
  }

  /** The timestamp read as the last 15 characters of the extension-less
      basename, whatever name precedes it. */
  function SuffixStampOf(path: string): Result<PyDateTime> {
    var stem := SplitExt(Basename(path)).0;
    if |stem| < 15 then ValueError("time data does not match format")
    else Parse(stem[|stem| - 15..], StampFormat)
  }

  /** Candidate `k` is the one `find_latest_file` returns: all candidates
      parse, `k`'s time is later than the epoch sentinel and no earlier than
      any other, and every candidate before it is strictly earlier. */
  ghost predicate LatestAt(files: seq<string>, stampOf: string -> Result<PyDateTime>, k: int) {
    0 <= k < |files|
    && (forall i | 0 <= i < |files| :: stampOf(files[i]).Ok?)
    && Before(Epoch, stampOf(files[k]).value)
    && (forall i | 0 <= i < |files| :: !Before(stampOf(files[k]).value, stampOf(files[i]).value))
    && (forall i | 0 <= i < k :: Before(stampOf(files[i]).value, stampOf(files[k]).value))
  }

  /** The selection loop of every `find_latest_file` copy: keeps the first
      candidate with a time strictly later than the best so far, starting
      from the epoch; the first unparsable candidate raises. */
  method FindLatest(files: seq<string>, stampOf: string -> Result<PyDateTime>) returns (r: Result<Option<string>>)
    ensures r.Raise? <==> exists i | 0 <= i < |files| :: stampOf(files[i]).Raise?
    ensures r.Raise? ==> exists i | 0 <= i < |files| ::
      stampOf(files[i]) == Raise(r.exc) && forall j | 0 <= j < i :: stampOf(files[j]).Ok?
    ensures r == Ok(None) <==> forall i | 0 <= i < |files| :: stampOf(files[i]).Ok? && !Before(Epoch, stampOf(files[i]).value)
    ensures r.Ok? && r.value.Some? ==> exists k :: LatestAt(files, stampOf, k) && files[k] == r.value.value
  {
    var latest: Option<string> := None;
    var latestTime: PyDateTime := Epoch;
    ghost var k := -1;
    var i := 0;
    while i < |files|
      invariant 0 <= i <= |files|
      invariant forall j | 0 <= j < i :: stampOf(files[j]).Ok?
      invariant latest.None? ==> latestTime == Epoch && forall j | 0 <= j < i :: !Before(Epoch, stampOf(files[j]).value)
      invariant latest.Some? ==> 0 <= k < i && files[k] == latest.value && latestTime == stampOf(files[k]).value
      invariant latest.Some? ==> Before(Epoch, latestTime)
      invariant latest.Some? ==> forall j | 0 <= j < i :: !Before(latestTime, stampOf(files[j]).value)
      invariant latest.Some? ==> forall j | 0 <= j < k :: Before(stampOf(files[j]).value, latestTime)
    {
      var t := stampOf(files[i]);
      if t.Raise? {
        return Raise(t.exc);
      }
      if Before(latestTime, t.value) {
        forall j | 0 <= j < i ensures !Before(t.value, stampOf(files[j]).value) && Before(stampOf(files[j]).value, t.value) {
          var u := stampOf(files[j]).value;
          BeforeStrictOrder(latestTime, t.value, u);
          BeforeStrictOrder(u, latestTime, t.value);
          BeforeStrictOrder(latestTime, u, t.value);
        }
        BeforeStrictOrder(Epoch, latestTime, t.value);
        latest := Some(files[i]);
        latestTime := t.value;
        k := i;
      }
      i := i + 1;
    }
    if latest.Some? {
      assert LatestAt(files, stampOf, k);
    }
    return Ok(latest);
  }

  /** `find_latest_file` of backend/utils.py and pipeline/src/models/models.py. */
  method FindLatestFile(walk: seq<WalkStep>, ext: string) returns (r: Result<Option<string>>)
    ensures r.Raise? <==> exists p | p in GlobRecursive(walk, ext) :: StampOf(p).Raise?
    ensures (forall p | p in Visited(walk) :: !MatchesPattern(p, ext)) ==> r == Ok(None)
    ensures r == Ok(None) <==> forall p | p in GlobRecursive(walk, ext) :: StampOf(p).Ok? && !Before(Epoch, StampOf(p).value)
    ensures r.Ok? && r.value.Some? ==> exists k :: LatestAt(GlobRecursive(walk, ext), StampOf, k) && GlobRecursive(walk, ext)[k] == r.value.value
    ensures r.Ok? && r.value.Some? ==> MatchesPattern(r.value.value, ext) && r.value.value in Visited(walk)
  {
    var files := GlobRecursive(walk, ext);
    FilterSpec(Visited(walk), (p: string) => MatchesPattern(p, ext));
    FilterEmpty(Visited(walk), (p: string) => MatchesPattern(p, ext));
    r := FindLatest(files, StampOf);
    NoneByMembership(files, StampOf, r);
    if r.Raise? {
      var i :| 0 <= i < |files| && StampOf(files[i]).Raise?;
      assert files[i] in files;
    }
    if r.Ok? && r.value.Some? {
      ghost var k :| LatestAt(files, StampOf, k) && files[k] == r.value.value;
      assert files[k] in files;
    }
  }

  /** The resolver's `None` condition, over indices, restated over membership. */
  lemma NoneByMembership(files: seq<string>, stampOf: string -> Result<PyDateTime>, r: Result<Option<string>>)
    requires r == Ok(None) <==> forall i | 0 <= i < |files| :: stampOf(files[i]).Ok? && !Before(Epoch, stampOf(files[i]).value)
    ensures r == Ok(None) <==> forall p | p in files :: stampOf(p).Ok? && !Before(Epoch, stampOf(p).value)
  {
    if r != Ok(None) {
      var i :| 0 <= i < |files| && !(stampOf(files[i]).Ok? && !Before(Epoch, stampOf(files[i]).value));
      assert files[i] in files;
    }
  }

  /** `glob(os.path.join(folder, "light_gbm_regression_*." + ext))` keeps a
      direct child whose name starts with the prefix and ends in the extension. */
  predicate MatchesFlat(name: string, ext: string) {
    |name| >= |ModelPrefix| + 1 + |ext| && StartsWith(name, ModelPrefix) && EndsWith(name, "." + ext)
  }

  /** The flat candidates: matching children joined to the folder, in listing order. */
  function GlobFlat(folder: string, names: seq<string>, ext: string): (r: seq<string>)
    ensures |r| <= |names|
  {
    MapSeq(Filter(names, (n: string) => MatchesFlat(n, ext)), (n: string) => Join(folder, n))
  }

  /** Every flat candidate is a matching child joined to the folder, and
      there is none when no child matches. */
  lemma GlobFlatSpec(folder: string, names: seq<string>, ext: string)
    ensures (forall n | n in names :: !MatchesFlat(n, ext)) ==> GlobFlat(folder, names, ext) == []
    ensures forall k | 0 <= k < |GlobFlat(folder, names, ext)| ::
      exists n | n in names :: MatchesFlat(n, ext) && GlobFlat(folder, names, ext)[k] == Join(folder, n)
  {
    var kept := Filter(names, (n: string) => MatchesFlat(n, ext));
    FilterSpec(names, (n: string) => MatchesFlat(n, ext));
    FilterEmpty(names, (n: string) => MatchesFlat(n, ext));
    forall k | 0 <= k < |GlobFlat(folder, names, ext)|
      ensures exists n | n in names :: MatchesFlat(n, ext) && GlobFlat(folder, names, ext)[k] == Join(folder, n)
    {
      assert kept[k] in kept;
    }
  }

  /** `find_latest_file` of datapipeline/src/models/models.py: no recursion,
      only direct children of `folder`. */
  method FindLatestFlat(folder: string, names: seq<string>, ext: string) returns (r: Result<Option<string>>)
    ensures (forall n | n in names :: !MatchesFlat(n, ext)) ==> r == Ok(None)
    ensures r == Ok(None) <==> forall p | p in GlobFlat(folder, names, ext) :: StampOf(p).Ok? && !Before(Epoch, StampOf(p).value)
    ensures r.Raise? <==> exists p | p in GlobFlat(folder, names, ext) :: StampOf(p).Raise?
    ensures r.Ok? && r.value.Some? ==> exists k :: LatestAt(GlobFlat(folder, names, ext), StampOf, k) && GlobFlat(folder, names, ext)[k] == r.value.value
    ensures r.Ok? && r.value.Some? ==> exists n | n in names :: MatchesFlat(n, ext) && r.value.value == Join(folder, n)
  {
    var files := GlobFlat(folder, names, ext);
    GlobFlatSpec(folder, names, ext);
    r := FindLatest(files, StampOf);
    NoneByMembership(files, StampOf, r);
    if r.Raise? {
      var i :| 0 <= i < |files| && StampOf(files[i]).Raise?;
      assert files[i] in files;
    }
    if r.Ok? && r.value.Some? {
      ghost var k :| LatestAt(files, StampOf, k) && files[k] == r.value.value;
      assert 0 <= k < |files|;
    }
  }

  /** `find_latest_file` with the timestamp read from the end of the name. */
  method FindLatestBySuffix(walk: seq<WalkStep>, ext: string) returns (r: Result<Option<string>>)
    ensures r.Raise? <==> exists p | p in GlobRecursive(walk, ext) :: SuffixStampOf(p).Raise?
    ensures r == Ok(None) <==> forall p | p in GlobRecursive(walk, ext) :: SuffixStampOf(p).Ok? && !Before(Epoch, SuffixStampOf(p).value)
    ensures r.Ok? && r.value.Some? ==> exists k :: LatestAt(GlobRecursive(walk, ext), SuffixStampOf, k) && GlobRecursive(walk, ext)[k] == r.value.value
  {
    var files := GlobRecursive(walk, ext);
    r := FindLatest(files, SuffixStampOf);
    NoneByMembership(files, SuffixStampOf, r);
    if r.Raise? {
      var i :| 0 <= i < |files| && SuffixStampOf(files[i]).Raise?;
      assert files[i] in files;
    }
  }

  // ------------------------------------------------------------ names

  /** The two extensions the resolver is asked for. */
  predicate ArtifactExt(ext: string) {
    ext == "pkl" || ext == "txt"
  }

  lemma ArtifactExtShape(ext: string)
    requires ArtifactExt(ext)
    ensures IsExtension("." + ext) && 'h' !in ext && '/' !in ext && '.' !in ext
  {
  }

  /** The shape of a printed `%Y%m%d_%H%M%S` stamp that the name handling
      relies on. */
  predicate StampLike(s: string) {
    |s| == 15 && '/' !in s && '.' !in s && 'h' !in s
  }

  lemma PrintedStampLike(t: PyDateTime)
    ensures StampLike(Print(t, StampFormat))
  {
    StampShape(t, '/');
    StampShape(t, '.');
    StampShape(t, 'h');
  }

  /** The shape of the model prefix the name handling relies on: an 'h' at
      index 3, and neither '/' nor '.'. */
  predicate PrefixLike(pre: string) {
    |pre| >= 4 && pre[3] == 'h' && '/' !in pre && '.' !in pre
  }

  lemma ModelPrefixLike()
    ensures PrefixLike(ModelPrefix)
  {
  }

  /** No text without an 'h' holds the prefix, so stripping the prefix off
      the front of such a text leaves exactly the text. */
  lemma StripPrefix(pre: string, tail: string)
    requires PrefixLike(pre) && 'h' !in tail
    ensures RemoveAll(pre + tail, pre) == tail
  {
    forall i | 0 <= i <= |tail| - |pre| ensures !OccursAt(tail, pre, i) {
      assert tail[i + 3] in tail;
      assert tail[i..i + |pre|][3] != pre[3];
    }
    RemoveAllNoOccurrence(tail, pre);
    RemoveAllLeading(pre, tail);
  }

  /** A stem ending in a stamp has a named last component. */
  lemma StemNamed(lead: string, stamp: string)
    requires '/' !in lead && StampLike(stamp)
    ensures NamedLastComponent(lead + stamp)
  {
    var stem := lead + stamp;
    assert '/' !in stem;
    RFindAppendWithout(lead, stamp, '/');
    assert stem[|stem| - 1] == stamp[14];
    assert stamp[14] in stamp;
    assert NonDotBefore(stem, 0, |stem|);
  }

  /** The stem `find_latest_file` parses for `<pre><rest>.<ext>`. */
  lemma PrefixedStem(dir: string, pre: string, rest: string, ext: string)
    requires PrefixLike(pre) && ArtifactExt(ext)
    requires '/' !in rest && 'h' !in rest && NamedLastComponent(rest)
    ensures SplitExt(RemoveAll(Basename(Join(dir, pre + rest + "." + ext)), pre)).0 == rest
  {
    var tail := rest + ("." + ext);
    var name := pre + tail;
    assert pre + rest + "." + ext == name;
    ArtifactExtShape(ext);
    assert '/' !in name;
    JoinBasename(dir, name);
    assert 'h' !in tail;
    StripPrefix(pre, tail);
    SplitExtAppended(rest, "." + ext);
  }

  /** The stem of `light_gbm_regression_<rest>.<ext>`. */
  lemma ArtifactStem(dir: string, rest: string, ext: string)
    requires ArtifactExt(ext)
    requires '/' !in rest && 'h' !in rest && NamedLastComponent(rest)
    ensures SplitExt(RemoveAll(Basename(Join(dir, ModelPrefix + rest + "." + ext)), ModelPrefix)).0 == rest
  {
    ModelPrefixLike();
    PrefixedStem(dir, ModelPrefix, rest, ext);
  }

  /** An artifact named `light_gbm_regression_<stamp>.<ext>`, anywhere, is
      read back as the time that was printed into its name. */
  lemma ArtifactStamp(dir: string, t: PyDateTime, ext: string)
    requires ArtifactExt(ext)
    ensures StampOf(Join(dir, ModelPrefix + Print(t, StampFormat) + "." + ext)) == Ok(t)
  {
    var stamp := Print(t, StampFormat);
    PrintedStampLike(t);
    StemNamed([], stamp);
    assert [] + stamp == stamp;
    ArtifactStem(dir, stamp, ext);
    StampRoundTrip(t);
  }

  /** The base name training gives an artifact: the extension is appended. */
  lemma PrefixedName(dir: string, pre: string, stamp: string, ext: string)
    requires PrefixLike(pre) && StampLike(stamp) && ArtifactExt(ext)
    ensures WithExt(Join(dir, pre + stamp), "." + ext) == Join(dir, pre + stamp + "." + ext)
  {
    ArtifactExtShape(ext);
    var name := pre + stamp;
    PrefixedPlain(pre, stamp);
    WithExtPlainName(dir, name, "." + ext);
    JoinAppend(dir, name, "." + ext);
    Reassoc(name, ".", ext);
  }

  /** A prefix and a stamp together make a plain file name. */
  lemma PrefixedPlain(pre: string, stamp: string)
    requires PrefixLike(pre) && StampLike(stamp)
    ensures pre + stamp != [] && (pre + stamp)[0] != '/'
    ensures '/' !in pre + stamp && '.' !in pre + stamp
  {
    var name := pre + stamp;
    assert name[0] == pre[0] && pre[0] in pre;
    forall i | 0 <= i < |name| ensures name[i] != '/' && name[i] != '.' {
      if i < |pre| { assert name[i] == pre[i]; } else { assert name[i] == stamp[i - |pre|]; }
    }
  }

  /** Training names the preprocessor (".pkl") and the model (".txt") from one
      `now` stamp; under the `light_gbm_regression` name both files are read
      back as that same time, so the resolver pairs them. */
  lemma TrainingArtifactsPair(dir: string, t: PyDateTime)
    ensures StampOf(WithExt(Join(dir, ModelPrefix + Print(t, StampFormat)), PklExt)) == Ok(t)
    ensures StampOf(WithExt(Join(dir, ModelPrefix + Print(t, StampFormat)), TxtExt)) == Ok(t)
  {
    var stamp := Print(t, StampFormat);
    PrintedStampLike(t);
    ModelPrefixLike();
    assert PklExt == "." + "pkl" && TxtExt == "." + "txt";
    PrefixedName(dir, ModelPrefix, stamp, "pkl");
    PrefixedName(dir, ModelPrefix, stamp, "txt");
    ArtifactStamp(dir, t, "pkl");
    ArtifactStamp(dir, t, "txt");
  }

  /** A stem that starts with a letter is not a stamp. */
  lemma LetterStemRaises(stem: string)
    requires |stem| >= 4 && !IsDigit(stem[0])
    ensures Raises(Parse(stem, StampFormat), "ValueError")
  {
    assert !AllDigits(stem[..4]) by { assert stem[..4][0] == stem[0]; }
  }

  lemma Reassoc(a: string, b: string, c: string)
    ensures a + b + c == a + (b + c)
  {
  }

  /** The registered serving model's artifacts,
      `light_gbm_regression_serving_<stamp>.<ext>`, match the glob but make
      the timestamp parse raise. */
  lemma ServingArtifactRaises(dir: string, t: PyDateTime, ext: string)
    requires ArtifactExt(ext)
    ensures MatchesPattern(Join(dir, ModelPrefix + "serving_" + Print(t, StampFormat) + "." + ext), ext)
    ensures Raises(StampOf(Join(dir, ModelPrefix + "serving_" + Print(t, StampFormat) + "." + ext)), "ValueError")
  {
    var stamp := Print(t, StampFormat);
    var rest := "serving_" + stamp;
    PrintedStampLike(t);
    StemNamed("serving_", stamp);
    assert 'h' !in rest && '/' !in rest;
    ArtifactStem(dir, rest, ext);
    assert rest[0] == 's';
    LetterStemRaises(rest);
    ServingMatches(dir, rest, ext);
    Reassoc(ModelPrefix, "serving_", stamp);
  }

  /** Any `light_gbm_regression_<rest>.<ext>` name matches the recursive glob. */
  lemma ServingMatches(dir: string, rest: string, ext: string)
    requires ArtifactExt(ext) && '/' !in rest
    ensures MatchesPattern(Join(dir, ModelPrefix + rest + "." + ext), ext)
  {
    ArtifactExtShape(ext);
    var name := ModelPrefix + rest + "." + ext;
    NameParts(ModelPrefix, rest, ".", ext);
    assert name[0] in name;
    NameInPath(dir, name, ModelPrefix, "." + ext);
  }

  /** The first part of a concatenation starts it, the last two end it. */
  lemma NameParts(a: string, b: string, c: string, d: string)
    ensures StartsWith(a + b + c + d, a) && EndsWith(a + b + c + d, c + d)
    ensures '/' !in a + b + c + d <== '/' !in a && '/' !in b && '/' !in c && '/' !in d
  {
    assert a + b + c + d == a + (b + c + d);
    assert a + b + c + d == (a + b) + (c + d);
  }

  /** Where a prefix and a suffix of a name sit in the path it is joined to. */
  lemma NameInPath(dir: string, name: string, pre: string, suffix: string)
    requires name != [] && name[0] != '/' && StartsWith(name, pre) && EndsWith(name, suffix)
    ensures |Join(dir, name)| >= |name|
    ensures OccursAt(Join(dir, name), pre, |Join(dir, name)| - |name|)
    ensures EndsWith(Join(dir, name), suffix)
  {
    var path := Join(dir, name);
    assert !StartsWith(name, "/");
    OccursInTail(path, name, pre, name[|pre|..]);
    EndsWithTail(path, name, name[..|name| - |suffix|], suffix);
  }

  /** A prefix of a text a path ends with occurs in the path. */
  lemma OccursInTail(path: string, name: string, pre: string, rest: string)
    requires name == pre + rest && EndsWith(path, name)
    ensures OccursAt(path, pre, |path| - |name|)
  {
    var at := |path| - |name|;
    assert path[at..] == name;
    assert path[at..at + |pre|] == path[at..][..|pre|];
  }

  /** A suffix of a text a path ends with ends the path. */
  lemma EndsWithTail(path: string, name: string, init: string, suffix: string)
    requires name == init + suffix && EndsWith(path, name)
    ensures EndsWith(path, suffix)
  {
    assert path[|path| - |name|..] == name;
    assert path[|path| - |suffix|..] == path[|path| - |name|..][|init|..];
  }

  /** Reading the stamp from the end of the name accepts every artifact name,
      the serving model's included. */
  lemma SuffixStampAnyName(dir: string, lead: string, t: PyDateTime, ext: string)
    requires ArtifactExt(ext)
    requires '/' !in lead
    ensures SuffixStampOf(Join(dir, lead + Print(t, StampFormat) + "." + ext)) == Ok(t)
  {
    var stamp := Print(t, StampFormat);
    PrintedStampLike(t);
    SuffixStem(dir, lead, stamp, ext);
    StampRoundTrip(t);
  }

  lemma SuffixStem(dir: string, lead: string, stamp: string, ext: string)
    requires ArtifactExt(ext) && StampLike(stamp) && '/' !in lead
    ensures var stem := SplitExt(Basename(Join(dir, lead + stamp + "." + ext))).0;
      |stem| >= 15 && stem[|stem| - 15..] == stamp
  {
    var stem := lead + stamp;
    var name := stem + ("." + ext);
    assert lead + stamp + "." + ext == name;
    ArtifactExtShape(ext);
    assert '/' !in name;
    JoinBasename(dir, name);
    StemNamed(lead, stamp);
    SplitExtAppended(stem, "." + ext);
    assert stem[|stem| - 15..] == stamp;
  }

  /** On the names training produces, the two readings agree. */
  lemma SuffixStampAgrees(dir: string, t: PyDateTime, ext: string)
    requires ArtifactExt(ext)
    ensures SuffixStampOf(Join(dir, ModelPrefix + Print(t, StampFormat) + "." + ext))
         == StampOf(Join(dir, ModelPrefix + Print(t, StampFormat) + "." + ext))
  {
    assert '/' !in ModelPrefix;
    ArtifactStamp(dir, t, ext);
    SuffixStampAnyName(dir, ModelPrefix, t, ext);
  }
}

/** The model registries (`MODELS`) of the training pipeline and the data
  pipeline: an enumeration of entries looked up by name. */
module ModelRegistry {
  import opened Wrappers

  /** A registered model: its name and opaque tags for the estimator class
      and its default parameters. */
  datatype Model = Model(name: string, estimator: string, params: string)

  /** pipeline/src/models/models.py: the serving model only. */
  const PipelineModels := [Model("light_gbm_regression_serving", "LightGBMRegressionModelServing", "LGB_REGRESSION_DEFAULT_PARAMS")]

  /** datapipeline/src/models/models.py: the training model only. */
  const DataPipelineModels := [Model("light_gbm_regression", "LightGBMRegressionModel", "LGB_REGRESSION_DEFAULT_PARAMS")]

  /** `MODELS.get_list()`: the entries in declaration order. */
  function GetList(registry: seq<Model>): seq<Model> {
    registry
  }

  /** `MODELS.has_value(name)`. */
  predicate HasValue(registry: seq<Model>, name: string) {
    exists i | 0 <= i < |registry| :: registry[i].name == name
  }

  /** `MODELS.get_model(name)`: the first entry with that name, else `ValueError`. */
  function GetModel(registry: seq<Model>, name: string): (r: Result<Model>)
    ensures r.Ok? ==> r.value.name == name && r.value in registry
    ensures r.Ok? ==> exists i | 0 <= i < |registry| :: registry[i] == r.value && forall j | 0 <= j < i :: registry[j].name != name
    ensures r.Raise? ==> r.exc == Exc("ValueError", "cannot find the model")
  {
    if registry == [] then ValueError("cannot find the model")
    else if registry[0].name == name then Ok(registry[0])
    else
      var m :- GetModel(registry[1..], name);
      assert forall j | 1 <= j < |registry| :: registry[j] == registry[1..][j - 1];
      Ok(m)
  }

  /** `has_value` holds exactly when `get_model` succeeds. */
  lemma {:induction false} HasValueIffFound(registry: seq<Model>, name: string)
    ensures HasValue(registry, name) <==> GetModel(registry, name).Ok?
  {
    if registry != [] && registry[0].name != name {
      HasValueIffFound(registry[1..], name);
      if HasValue(registry, name) {
        var i :| 0 <= i < |registry| && registry[i].name == name;
        assert registry[1..][i - 1].name == name;
      }
      if HasValue(registry[1..], name) {
        var i :| 0 <= i < |registry[1..]| && registry[1..][i].name == name;
        assert registry[i + 1].name == name;
      }
    }
  }

  /** Every listed entry can be looked up by its name, and `get_model`
      returns the first listed entry of that name. */
  lemma ListedModelsResolve(registry: seq<Model>, i: int)
    requires 0 <= i < |GetList(registry)|
    ensures HasValue(registry, GetList(registry)[i].name)
    ensures GetModel(registry, GetList(registry)[i].name).Ok?
    ensures exists k | 0 <= k <= i :: GetModel(registry, GetList(registry)[i].name).value == GetList(registry)[k]
  {
    var name := GetList(registry)[i].name;
    HasValueIffFound(registry, name);
    var m := GetModel(registry, name).value;
    var k :| 0 <= k < |registry| && registry[k] == m && forall j | 0 <= j < k :: registry[j].name != name;
    assert k <= i;
  }

  /** Each registry knows exactly its one model name. */
  lemma RegistryContents(name: string)
    ensures GetModel(PipelineModels, name).Ok? <==> name == "light_gbm_regression_serving"
    ensures GetModel(DataPipelineModels, name).Ok? <==> name == "light_gbm_regression"
    ensures |GetList(PipelineModels)| == 1 && |GetList(DataPipelineModels)| == 1
  {
  }
}
