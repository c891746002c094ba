/** The extension rule shared by every `dump_pipeline` (".pkl"), the model
  wrapper's `save` (".txt") and `DataRegister.register` (".csv"): a path that
  already ends in the extension is kept, otherwise its last extension is
  replaced, or the extension is appended when there is none. */
module Paths {
  import opened Text

  const PklExt := ".pkl"
  const TxtExt := ".txt"
  const CsvExt := ".csv"

  function WithExt(path: string, ext: string): (r: string)
    requires IsExtension(ext)
    ensures EndsWith(r, ext)
    ensures SplitExt(path).1 == ext ==> r == path
    ensures !HasExtension(path) ==> r == path + ext
  {
    var parts := SplitExt(path);
    if parts.1 != ext then parts.0 + ext else path
  }

  lemma NamedRoot(path: string)
    requires NamedLastComponent(path)
    ensures NamedLastComponent(SplitExt(path).0)
  {
    if HasExtension(path) { SplitExtRootNamed(path); }
  }

  /** The result keeps the input's root and carries exactly `ext`: splitting
      it gives back the original root and the new extension. */
  lemma WithExtSplits(path: string, ext: string)
    requires IsExtension(ext)
    requires NamedLastComponent(path)
    ensures SplitExt(WithExt(path, ext)) == (SplitExt(path).0, ext)
  {
    NamedRoot(path);
    SplitExtAppended(SplitExt(path).0, ext);
  }

  /** Normalising twice is normalising once, for any path whose last
      component is named. */
  lemma WithExtIdempotent(path: string, ext: string)
    requires IsExtension(ext)
    requires NamedLastComponent(path)
    ensures WithExt(WithExt(path, ext), ext) == WithExt(path, ext)
  {
    WithExtSplits(path, ext);
  }

  /** Without a named last component the rule is not idempotent: a directory
      path gains a hidden file name, which then gains a second extension. */
  lemma WithExtDirectory()
    ensures WithExt("dir/", PklExt) == "dir/.pkl"
    ensures WithExt("dir/.pkl", PklExt) == "dir/.pkl.pkl"
  {
    assert RFind("dir/", '.') == -1;
    assert "dir/.pkl" == "dir/" + PklExt;
    RFindAt("dir/", 3, '/');
    RFindAppendWithout("dir/", PklExt, '/');
    assert PklExt == "." + "pkl";
    RFindAt(".", 0, '.');
    RFindAppendWithout(".", "pkl", '.');
    RFindAppendWith("dir/", PklExt, '.');
    assert !NonDotBefore("dir/.pkl", 4, 4);
  }

  /** A dot-free name joined to a directory just gains the extension, and
      its basename is the name with the extension. */
  lemma WithExtPlainName(dir: string, name: string, ext: string)
    requires IsExtension(ext)
    requires name != [] && '/' !in name && '.' !in name
    ensures WithExt(Join(dir, name), ext) == Join(dir, name) + ext
    ensures Basename(WithExt(Join(dir, name), ext)) == name + ext
  {
    PlainNameNoExtension(dir, name);
    var p := Join(dir, name);
    assert WithExt(p, ext) == p + ext;
    BasenameOfPlain(dir, name, ext);
  }

  /** A dot-free name joined to a directory has no extension. */
  lemma PlainNameNoExtension(dir: string, name: string)
    requires name != [] && '/' !in name && '.' !in name
    ensures !HasExtension(Join(dir, name))
  {
    assert name[0] != '/';
    assert !StartsWith(name, "/");
    var p := Join(dir, name);
    var d := if dir == [] || EndsWith(dir, "/") then dir else dir + "/";
    assert p == d + name;
    RFindAppendWithout(d, name, '.');
    RFindAppendWithout(d, name, '/');
    if d == [] {
      assert p == name;
    } else {
      assert d[|d| - 1] == '/';
      RFindAt(d, |d| - 1, '/');
      assert RFind(p, '/') == |d| - 1;
      assert RFind(p, '.') != |d| - 1;
    }
  }

  /** The basename of a joined name with a slash-free suffix is the name
      with the suffix. */
  lemma BasenameOfPlain(dir: string, name: string, ext: string)
    requires name != [] && '/' !in name && '/' !in ext
    ensures Basename(Join(dir, name) + ext) == name + ext
  {
    assert name[0] in name;
    JoinAppend(dir, name, ext);
    assert (name + ext)[0] == name[0];
    JoinBasename(dir, name + ext);
  }

  /** `rfind` finds the last character when it is the one sought. */
  lemma RFindAt(s: string, i: int, c: char)
    requires 0 <= i == |s| - 1 && s[i] == c
    ensures RFind(s, c) == i
  {
    var init := s[..i];
    assert s == init + [c];
    RFindAppendWith(init, [c], c);
  }
}
