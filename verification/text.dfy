/** Python string and POSIX path operations used by the core, over `seq<char>`.

  `RFind` is `str.rfind` for one character, `RemoveAll` is `str.replace(p, '')`,
  `Basename` is `path.split('/')[-1]`, `SplitExt` is `posixpath.splitext`,
  `Join` is `posixpath.join` of two components, and `LexLess` is Python's
  `<` on strings (code-point lexicographic order).
 */
module Text {

  predicate StartsWith(s: string, p: string) {
    |p| <= |s| && s[..|p|] == p
  }

  predicate EndsWith(s: string, p: string) {
    |p| <= |s| && s[|s| - |p|..] == p
  }

  /** `p` occurs in `s` starting at index `i`. */
  predicate OccursAt(s: string, p: string, i: int) {
    0 <= i && i + |p| <= |s| && s[i..i + |p|] == p
  }

  predicate Contains(s: string, p: string) {
    exists i | 0 <= i <= |s| - |p| :: OccursAt(s, p, i)
  }

  /** A text occurs in any text built around it. */
  lemma ContainsInfix(a: string, p: string, b: string)
    ensures OccursAt(a + p + b, p, |a|) && Contains(a + p + b, p)
  {
    var s := a + p + b;
    assert s[|a|..|a| + |p|] == p;
    assert 0 <= |a| <= |s| - |p| && OccursAt(s, p, |a|);
  }

  /** Index of the last occurrence of `c` in `s`, or -1 (Python `str.rfind`). */
  function RFind(s: string, c: char): (r: int)
    ensures -1 <= r < |s|
    ensures r >= 0 ==> s[r] == c
    ensures forall j | r < j < |s| :: s[j] != c
  {
    if |s| == 0 then -1
    else if s[|s| - 1] == c then |s| - 1
    else RFind(s[..|s| - 1], c)
  }

  lemma {:induction false} RFindAppendWith(s: string, t: string, c: char)
    requires c in t
    ensures RFind(s + t, c) == |s| + RFind(t, c)
    decreases |t|
  {
    var u := s + t;
    assert u[|u| - 1] == t[|t| - 1];
    if t[|t| - 1] != c {
      var t' := t[..|t| - 1];
      assert c in t' by {
        var k :| 0 <= k < |t| && t[k] == c;
        assert t'[k] == c;
      }
      assert u[..|u| - 1] == s + t';
      RFindAppendWith(s, t', c);
    }
  }

  lemma {:induction false} RFindAppendWithout(s: string, t: string, c: char)
    requires c !in t
    ensures RFind(s + t, c) == RFind(s, c)
    decreases |t|
  {
    if |t| == 0 {
      assert s + t == s;
    } else {
      var u := s + t;
      var t' := t[..|t| - 1];
      assert u[|u| - 1] == t[|t| - 1];
      assert u[..|u| - 1] == s + t';
      assert c !in t' by {
        forall k | 0 <= k < |t'| ensures t'[k] != c { assert t'[k] == t[k]; }
      }
      RFindAppendWithout(s, t', c);
    }
  }

  /** Python `str.replace(p, '')`: delete every non-overlapping occurrence of
      `p`, scanning from the left. */
  function RemoveAll(s: string, p: string): (r: string)
    requires |p| > 0
    ensures |r| <= |s|
    decreases |s|
  {
    if |s| < |p| then s
    else if s[..|p|] == p then RemoveAll(s[|p|..], p)
    else [s[0]] + RemoveAll(s[1..], p)
  }

  /** Text without any occurrence of `p` is left unchanged by `RemoveAll`. */
  lemma {:induction false} RemoveAllNoOccurrence(s: string, p: string)
    requires |p| > 0
    requires forall i | 0 <= i <= |s| - |p| :: !OccursAt(s, p, i)
    ensures RemoveAll(s, p) == s
    decreases |s|
  {
    if |s| < |p| {
    } else {
      assert !OccursAt(s, p, 0);
      assert s[..|p|] != p;
      var t := s[1..];
      forall i | 0 <= i <= |t| - |p|
        ensures !OccursAt(t, p, i)
      {
        assert !OccursAt(s, p, i + 1);
        assert t[i..i + |p|] == s[i + 1..i + 1 + |p|];
      }
      RemoveAllNoOccurrence(t, p);
      assert [s[0]] + t == s;
    }
  }

  /** A leading occurrence of `p` is deleted and the scan resumes after it. */
  lemma RemoveAllLeading(p: string, t: string)
    requires |p| > 0
    ensures RemoveAll(p + t, p) == RemoveAll(t, p)
  {
    assert (p + t)[..|p|] == p;
    assert (p + t)[|p|..] == t;
  }

  /** Python `path.split('/')[-1]`, which is also `posixpath.basename`. */
  function Basename(path: string): (r: string)
    ensures '/' !in r
    ensures EndsWith(path, r)
    ensures '/' !in path ==> r == path
  {
    path[RFind(path, '/') + 1..]
  }

  lemma BasenameAfterSlash(dir: string, name: string)
    requires '/' !in name
    ensures Basename(dir + "/" + name) == name
  {
    RFindAppendWith(dir, "/", '/');
    RFindAppendWithout(dir + "/", name, '/');
    assert (dir + "/" + name)[|dir| + 1..] == name;
  }

  /** The last component of `p` has a character other than '.' before index `dot`. */
  predicate NonDotBefore(p: string, from: int, dot: int)
    requires 0 <= from <= dot <= |p|
  {
    exists k | from <= k < dot :: p[k] != '.'
  }

  /** `p` has an extension in the sense of `posixpath.splitext`: its last '.'
      lies in the last path component and is preceded, within that component,
      by some character other than '.'. */
  predicate HasExtension(p: string) {
    var sep := RFind(p, '/');
    var dot := RFind(p, '.');
    dot > sep && NonDotBefore(p, sep + 1, dot)
  }

  /** `posixpath.splitext`: (root, ext) with `root + ext == p`. */
  function SplitExt(p: string): (r: (string, string))
    ensures r.0 + r.1 == p
    ensures r.1 != [] <==> HasExtension(p)
    ensures r.1 != [] ==> r.1[0] == '.' && '.' !in r.1[1..] && '/' !in r.1
  {
    var sep := RFind(p, '/');
    var dot := RFind(p, '.');
    if dot > sep && NonDotBefore(p, sep + 1, dot) then
      assert p[..dot] + p[dot..] == p;
      (p[..dot], p[dot..])
    else (p, "")
  }

  /** An extension argument as the source writes them: '.' followed by at
      least one character, none of them '.' or '/'. */
  predicate IsExtension(ext: string) {
    |ext| >= 2 && ext[0] == '.' && '.' !in ext[1..] && '/' !in ext
  }

  /** The last path component of `p` holds a character other than '.'. */
  predicate NamedLastComponent(p: string) {
    var sep := RFind(p, '/');
    NonDotBefore(p, sep + 1, |p|)
  }

  /** Appending an extension to a path whose last component is named gives a
      path that `SplitExt` splits back at the appended extension. */
  lemma SplitExtAppended(root: string, ext: string)
    requires IsExtension(ext)
    requires NamedLastComponent(root)
    ensures SplitExt(root + ext) == (root, ext)
  {
    var p := root + ext;
    var sep0 := RFind(root, '/');
    RFindAppendWithout(root, ext, '/');
    assert RFind(p, '/') == sep0;
    RFindAppendWith(root, ext, '.');
    var tail := ext[1..];
    assert RFind(ext, '.') == 0 by {
      assert ext[0] == '.';
      forall j | 0 < j < |ext| ensures ext[j] != '.' {
        assert ext[j] == tail[j - 1];
      }
    }
    assert RFind(p, '.') == |root|;
    var k :| sep0 + 1 <= k < |root| && root[k] != '.';
    assert p[k] == root[k];
    assert NonDotBefore(p, sep0 + 1, |root|);
    assert p[..|root|] == root;
    assert p[|root|..] == ext;
  }

  /** The root `SplitExt` returns keeps a named last component whenever an
      extension was split off. */
  lemma SplitExtRootNamed(p: string)
    requires HasExtension(p)
    ensures NamedLastComponent(SplitExt(p).0)
  {
    var sep := RFind(p, '/');
    var dot := RFind(p, '.');
    var root := p[..dot];
    assert SplitExt(p).0 == root;
    assert p == root + p[dot..];
    var tailPart := p[dot..];
    assert '/' !in tailPart by {
      forall j | 0 <= j < |tailPart| ensures tailPart[j] != '/' {
        assert tailPart[j] == p[dot + j];
      }
    }
    RFindAppendWithout(root, tailPart, '/');
    var k :| sep + 1 <= k < dot && p[k] != '.';
    assert root[k] == p[k];
  }

  /** `posixpath.join(a, b)` for two components. */
  function Join(a: string, b: string): (r: string)
    ensures StartsWith(b, "/") ==> r == b
    ensures !StartsWith(b, "/") ==> EndsWith(r, b) && StartsWith(r, a)
  {
    if StartsWith(b, "/") then b
    else if a == [] || EndsWith(a, "/") then a + b
    else a + "/" + b
  }

  /** Appending to a relative name commutes with joining. */
  lemma JoinAppend(dir: string, name: string, ext: string)
    requires name != [] && name[0] != '/'
    ensures Join(dir, name) + ext == Join(dir, name + ext)
  {
    assert !StartsWith(name, "/");
    assert (name + ext)[..1] == name[..1];
    assert !StartsWith(name + ext, "/");
    if dir == [] || EndsWith(dir, "/") {
      assert dir + name + ext == dir + (name + ext);
    } else {
      assert dir + "/" + name + ext == dir + "/" + (name + ext);
    }
  }

  lemma JoinBasename(a: string, b: string)
    requires b != [] && '/' !in b
    ensures Basename(Join(a, b)) == b
  {
    assert b[0] != '/';
    assert !StartsWith(b, "/");
    if a == [] {
    } else if EndsWith(a, "/") {
      var d := a[..|a| - 1];
      assert a == d + "/";
      BasenameAfterSlash(d, b);
    } else {
      BasenameAfterSlash(a, b);
    }
  }

  // ---------------------------------------------------------------- digits

  predicate IsDigit(c: char) { '0' <= c <= '9' }

  predicate AllDigits(s: string) { forall i | 0 <= i < |s| :: IsDigit(s[i]) }

  function Pow10(n: nat): (r: nat)
    ensures r >= 1
  {
    if n == 0 then 1 else 10 * Pow10(n - 1)
  }

  function DigitValue(c: char): (r: nat)
    requires IsDigit(c)
    ensures r <= 9
  {
    (c as int - '0' as int) as nat
  }

  function DigitChar(d: nat): (c: char)
    requires d <= 9
    ensures IsDigit(c) && DigitValue(c) == d
  {
    (('0' as int) + d) as char
  }

  /** The number a string of decimal digits denotes. */
  function DigitsValue(s: string): (r: nat)
    requires AllDigits(s)
    ensures r < Pow10(|s|)
  {
    if |s| == 0 then 0
    else DigitsValue(s[..|s| - 1]) * 10 + DigitValue(s[|s| - 1])
  }

  /** `n` written in decimal with leading zeros to exactly `width` digits
      (what strftime's `%Y`, `%m`, … print). */
  function Pad(n: nat, width: nat): (r: string)
    requires n < Pow10(width)
    ensures |r| == width
    ensures AllDigits(r)
  {
    if width == 0 then []
    else Pad(n / 10, width - 1) + [DigitChar(n % 10)]
  }

  /** Reading a padded number back gives the number. */
  lemma {:induction false} PadValue(n: nat, width: nat)
    requires n < Pow10(width)
    ensures DigitsValue(Pad(n, width)) == n
  {
    if width > 0 {
      assert n / 10 < Pow10(width - 1);
      PadValue(n / 10, width - 1);
      var s := Pad(n, width);
      assert s[..|s| - 1] == Pad(n / 10, width - 1);
      assert DigitValue(s[|s| - 1]) == n % 10;
      assert DigitsValue(s) == (n / 10) * 10 + n % 10;
    }
  }

  /** Padding is the inverse of reading: a digit string is the padding of its value. */
  lemma {:induction false} ValuePad(s: string)
    requires AllDigits(s)
    ensures Pad(DigitsValue(s), |s|) == s
  {
    if |s| > 0 {
      var init := s[..|s| - 1];
      var n := DigitsValue(s);
      assert n / 10 == DigitsValue(init) && n % 10 == DigitValue(s[|s| - 1]);
      ValuePad(init);
      assert s == init + [s[|s| - 1]];
    }
  }

  /** Distinct digit strings of one width denote distinct numbers. */
  lemma DigitsInjective(a: string, b: string)
    requires AllDigits(a) && AllDigits(b) && |a| == |b|
    requires DigitsValue(a) == DigitsValue(b)
    ensures a == b
  {
    ValuePad(a);
    ValuePad(b);
  }

  // ------------------------------------------------------- string ordering

  /** Python's `a < b` on `str`: code-point lexicographic order. */
  predicate LexLess(a: string, b: string)
    decreases |a|
  {
    if |a| == 0 then |b| > 0
    else if |b| == 0 then false
    else if a[0] != b[0] then a[0] < b[0]
    else LexLess(a[1..], b[1..])
  }

  /** Python's `a <= b` on `str`. */
  predicate LexLessEq(a: string, b: string) {
    a == b || LexLess(a, b)
  }

  /** Lexicographic order is total: of two different strings one is smaller. */
  lemma {:induction false} LexTotal(a: string, b: string)
    ensures a == b || LexLess(a, b) || LexLess(b, a)
    decreases |a|
  {
    if |a| > 0 && |b| > 0 && a[0] == b[0] {
      LexTotal(a[1..], b[1..]);
      if a[1..] == b[1..] {
        assert a == [a[0]] + a[1..];
        assert b == [b[0]] + b[1..];
      }
    }
  }

  lemma {:induction false} LexIrreflexive(a: string)
    ensures !LexLess(a, a)
    decreases |a|
  {
    if |a| > 0 { LexIrreflexive(a[1..]); }
  }

  lemma {:induction false} LexAsymmetric(a: string, b: string)
    requires LexLess(a, b)
    ensures !LexLess(b, a)
    decreases |a|
  {
    if |a| > 0 && |b| > 0 && a[0] == b[0] { LexAsymmetric(a[1..], b[1..]); }
  }

  lemma {:induction false} LexTransitive(a: string, b: string, c: string)
    requires LexLess(a, b) && LexLess(b, c)
    ensures LexLess(a, c)
    decreases |a|
  {
    if |a| > 0 && |b| > 0 && |c| > 0 && a[0] == b[0] && b[0] == c[0] {
      LexTransitive(a[1..], b[1..], c[1..]);
    }
  }

  /** Comparing two concatenations whose first parts have equal length
      compares the first parts, then the second parts. */
  lemma {:induction false} LexConcat(a1: string, a2: string, b1: string, b2: string)
    requires |a1| == |b1|
    ensures LexLess(a1 + a2, b1 + b2) <==> LexLess(a1, b1) || (a1 == b1 && LexLess(a2, b2))
    decreases |a1|
  {
    if |a1| == 0 {
      assert a1 + a2 == a2;
      assert b1 + b2 == b2;
    } else {
      assert (a1 + a2)[0] == a1[0];
      assert (b1 + b2)[0] == b1[0];
      assert (a1 + a2)[1..] == a1[1..] + a2;
      assert (b1 + b2)[1..] == b1[1..] + b2;
      LexConcat(a1[1..], a2, b1[1..], b2);
      if a1[0] == b1[0] && a1[1..] == b1[1..] {
        assert a1 == [a1[0]] + a1[1..];
        assert b1 == [b1[0]] + b1[1..];
      }
      if a1 == b1 {
        assert a1[1..] == b1[1..];
      }
    }
  }

  /** On digit strings of one width, string order is numeric order. */
  lemma {:induction false} LexDigits(a: string, b: string)
    requires AllDigits(a) && AllDigits(b) && |a| == |b|
    ensures LexLess(a, b) <==> DigitsValue(a) < DigitsValue(b)
    decreases |a|
  {
    if |a| == 0 {
    } else {
      var n := |a| - 1;
      var a', b' := a[..n], b[..n];
      assert a == a' + [a[n]] && b == b' + [b[n]];
      LexConcat(a', [a[n]], b', [b[n]]);
      LexDigits(a', b');
      if DigitsValue(a') == DigitsValue(b') {
        DigitsInjective(a', b');
      }
    }
  }
}
