/** Output-path naming: the string functions that decide where the augmented
    and the predicted rasters are written. Python's `str.split`, `str.join`,
    `os.path.basename` and `os.path.join` (POSIX flavour) are written out. */
module Paths {

  // ---------------------------------------------------------------------
  // Python's str.split(sep) and sep.join(parts) for a one-character sep
  // ---------------------------------------------------------------------

  /** `s.split(sep)`: the maximal pieces of s between occurrences of sep. */
  function Split(s: string, sep: char): (parts: seq<string>)
    ensures |parts| >= 1
    decreases |s|
  {
    if |s| == 0 then [""]
    else
      var rest := Split(s[1..], sep);
      if s[0] == sep then [""] + rest
      else [[s[0]] + rest[0]] + rest[1..]
  }

  /** `sep.join(parts)` */
  function Join(sep: char, parts: seq<string>): string
    decreases |parts|
  {
    if |parts| == 0 then ""
    else if |parts| == 1 then parts[0]
    else parts[0] + [sep] + Join(sep, parts[1..])
  }

  /** The index of the first occurrence of c in s. */
  function FirstIndex(s: string, c: char): (i: nat)
    requires c in s
    ensures i < |s| && s[i] == c && c !in s[..i]
  {
    if s[0] == c then 0 else 1 + FirstIndex(s[1..], c)
  }

  /** Joining the pieces of a split with the same separator gives the string back. */
  lemma {:induction false} JoinSplit(s: string, sep: char)
    ensures Join(sep, Split(s, sep)) == s
    decreases |s|
  {
    if |s| > 0 {
      var rest := Split(s[1..], sep);
      JoinSplit(s[1..], sep);
      if s[0] == sep {
        assert Split(s, sep)[1..] == rest;
      } else if |rest| > 1 {
        assert Split(s, sep)[1..] == rest[1..];
        assert Join(sep, rest) == rest[0] + [sep] + Join(sep, rest[1..]);
      }
    }
  }

  /** Split's first piece is everything before the first separator and the
      remaining pieces, joined again, are everything after it; without a
      separator the split is the string itself. */
  lemma SplitAtFirst(s: string, sep: char)
    ensures sep !in s ==> Split(s, sep) == [s]
    ensures sep in s ==>
      var i := FirstIndex(s, sep);
      var parts := Split(s, sep);
      |parts| >= 2 && parts[0] == s[..i] && Join(sep, parts[1..]) == s[i + 1..]
  {
    if sep in s {
      SplitAtSeparator(s, sep);
    } else {
      SplitWithoutSeparator(s, sep);
    }
  }

  /** A string without the separator splits into itself. */
  lemma {:induction false} SplitWithoutSeparator(s: string, sep: char)
    requires sep !in s
    ensures Split(s, sep) == [s]
    decreases |s|
  {
    if |s| > 0 {
      assert sep !in s[1..] by {
        assert s == [s[0]] + s[1..];
      }
      SplitWithoutSeparator(s[1..], sep);
      assert s[1..] + [] == s[1..];
      assert [s[0]] + s[1..] == s;
    }
  }

  /** A string holding the separator splits at its first occurrence. */
  lemma {:induction false} SplitAtSeparator(s: string, sep: char)
    requires sep in s
    ensures var i := FirstIndex(s, sep);
      var parts := Split(s, sep);
      |parts| >= 2 && parts[0] == s[..i] && Join(sep, parts[1..]) == s[i + 1..]
    decreases |s|
  {
    var rest := Split(s[1..], sep);
    if s[0] == sep {
      JoinSplit(s[1..], sep);
      assert Split(s, sep)[1..] == rest;
    } else {
      assert sep in s[1..] by {
        var j := FirstIndex(s, sep);
        assert s[1..][j - 1] == sep;
      }
      SplitAtSeparator(s[1..], sep);
      var i := FirstIndex(s, sep);
      assert i == 1 + FirstIndex(s[1..], sep);
      assert Split(s, sep)[0] == s[..i] by {
        assert [s[0]] + s[1..][..i - 1] == s[..i];
      }
      assert Split(s, sep)[1..] == rest[1..];
      assert s[1..][i..] == s[i + 1..];
    }
  }

  /** Splitting a string made of a separator-free piece, a separator and a
      tail yields the piece followed by the split of the tail. */
  lemma {:induction false} SplitAfterPiece(p: string, sep: char, t: string)
    requires sep !in p
    ensures Split(p + [sep] + t, sep) == [p] + Split(t, sep)
    decreases |p|
  {
    if |p| == 0 {
      assert p + [sep] + t == [sep] + t;
      assert ([sep] + t)[1..] == t;
    } else {
      var s := p + [sep] + t;
      assert s[0] == p[0];
      assert s[1..] == p[1..] + [sep] + t;
      SplitAfterPiece(p[1..], sep, t);
      assert [p[0]] + p[1..] == p;
    }
  }

  // ---------------------------------------------------------------------
  // POSIX os.path.basename and os.path.join
  // ---------------------------------------------------------------------

  /** `os.path.basename(p)`: what follows the last '/' of p (all of p if there is none). */
  function Basename(p: string): (b: string)
    ensures '/' !in b
    decreases |p|
  {
    if |p| == 0 then ""
    else if p[|p| - 1] == '/' then ""
    else Basename(p[..|p| - 1]) + [p[|p| - 1]]
  }

  /** One more character at the end: a '/' empties the basename, anything else extends it. */
  lemma BasenameSnoc(a: string, ch: char)
    ensures Basename(a + [ch]) == if ch == '/' then "" else Basename(a) + [ch]
  {
    var p := a + [ch];
    assert p[..|p| - 1] == a;
  }

  /** The basename of a concatenation is decided by the last '/' it contains. */
  lemma {:induction false} BasenameConcat(x: string, y: string)
    ensures '/' in y ==> Basename(x + y) == Basename(y)
    ensures '/' !in y ==> Basename(x + y) == Basename(x) + y
    decreases |y|
  {
    if |y| == 0 {
      assert x + y == x;
    } else {
      var init, ch := y[..|y| - 1], y[|y| - 1];
      assert y == init + [ch];
      assert x + y == (x + init) + [ch];
      BasenameConcat(x, init);
      BasenameSnoc(x + init, ch);
      BasenameSnoc(init, ch);
      assert ('/' in y) <==> ('/' in init || ch == '/');
    }
  }

  /** A string without '/' is its own basename. */
  lemma BasenameOfPlain(s: string)
    requires '/' !in s
    ensures Basename(s) == s
  {
    BasenameConcat("", s);
    assert "" + s == s;
  }

  /** `os.path.join(a, b)` for two components, POSIX flavour: an absolute b
      replaces a, otherwise a '/' separates them unless a is empty or already
      ends in one. */
  function PathJoin(a: string, b: string): string {
    if |b| > 0 && b[0] == '/' then b
    else if a == [] || a[|a| - 1] == '/' then a + b
    else a + "/" + b
  }

  // ---------------------------------------------------------------------
  // add_suffix_to_filename_at_tif_path (lines 69-75)
  // ---------------------------------------------------------------------

  /** Line 71: the first dot-separated piece, then an underscore, the
      suffix and a dot, then the remaining pieces joined with dots. */
  function SuffixedName(filename: string, suffix: string): string {
    var parts := Split(filename, '.');
    parts[0] + "_" + suffix + "." + Join('.', parts[1..])
  }

  /** Line 73: the file name kept of the suffixed path: its basename. */
  function OutputName(filename: string, suffix: string): string {
    Basename(SuffixedName(filename, suffix))
  }

  /** Lines 69-75: the kept file name, under the output folder. */
  function AddSuffix(filename: string, suffix: string, outFolder: string): string {
    PathJoin(outFolder, OutputName(filename, suffix))
  }

  /** The suffix goes in front of the FIRST dot of the whole path; a name
      without a dot gets the suffix and a trailing dot. */
  lemma InsertsBeforeFirstDot(filename: string, suffix: string)
    ensures '.' in filename ==>
      var i := FirstIndex(filename, '.');
      SuffixedName(filename, suffix) == filename[..i] + "_" + suffix + "." + filename[i + 1..]
    ensures '.' !in filename ==> SuffixedName(filename, suffix) == filename + "_" + suffix + "."
  {
    SplitAtFirst(filename, '.');
  }

  /** When the first dot lies in the file's own name (no '/' after it), the
      kept name is that name with the suffix inserted before its first dot:
      `x.tif` becomes `x_modified.tif` and `a.b.tif` becomes `a_modified.b.tif`. */
  lemma SuffixInBasename(filename: string, suffix: string)
    requires '/' !in suffix
    requires '.' in filename
    requires '/' !in filename[FirstIndex(filename, '.') + 1..]
    ensures var i := FirstIndex(filename, '.');
      OutputName(filename, suffix) == Basename(filename[..i]) + "_" + suffix + "." + filename[i + 1..]
  {
    var i := FirstIndex(filename, '.');
    var head, rest := filename[..i], filename[i + 1..];
    var tail := "_" + suffix + "." + rest;
    assert SuffixedName(filename, suffix) == head + tail by {
      InsertsBeforeFirstDot(filename, suffix);
      Regroup(head, "_", suffix, ".", rest);
    }
    assert Basename(head + tail) == Basename(head) + tail by {
      assert '/' !in tail;
      BasenameConcat(head, tail);
    }
    Regroup(Basename(head), "_", suffix, ".", rest);
  }

  /** Regrouping a concatenation of five pieces. */
  lemma Regroup<T>(a: seq<T>, b: seq<T>, c: seq<T>, d: seq<T>, e: seq<T>)
    ensures a + (b + c + d + e) == a + b + c + d + e
  {
  }

  /** A name without any dot keeps its basename and gains `_suffix.`. */
  lemma SuffixWithoutDot(filename: string, suffix: string)
    requires '/' !in suffix
    requires '.' !in filename
    ensures OutputName(filename, suffix) == Basename(filename) + "_" + suffix + "."
  {
    var tail := "_" + suffix + ".";
    assert SuffixedName(filename, suffix) == filename + tail by {
      InsertsBeforeFirstDot(filename, suffix);
    }
    assert Basename(filename + tail) == Basename(filename) + tail by {
      assert '/' !in tail;
      BasenameConcat(filename, tail);
    }
    assert Basename(filename) + tail == Basename(filename) + "_" + suffix + ".";
  }

  /** When the first dot of the path lies in a directory component (a '/'
      follows it), the suffix is dropped together with the directories: the
      kept name is the unchanged basename, the same whatever the suffix. */
  lemma SuffixLostInDirectory(filename: string, suffix: string)
    requires '.' in filename
    requires '/' in filename[FirstIndex(filename, '.') + 1..]
    ensures OutputName(filename, suffix) == Basename(filename)
  {
    InsertsBeforeFirstDot(filename, suffix);
    var i := FirstIndex(filename, '.');
    var rest := filename[i + 1..];
    var head := filename[..i] + "_" + suffix + ".";
    assert SuffixedName(filename, suffix) == head + rest;
    BasenameConcat(head, rest);
    assert filename == filename[..i + 1] + rest;
    BasenameConcat(filename[..i + 1], rest);
  }

  /** The first occurrence of c in x + y lies in x when x holds one. */
  lemma {:induction false} FirstIndexConcat(x: string, y: string, c: char)
    requires c in x
    ensures FirstIndex(x + y, c) == FirstIndex(x, c)
    decreases |x|
  {
    if x[0] != c {
      assert (x + y)[1..] == x[1..] + y;
      FirstIndexConcat(x[1..], y, c);
    }
  }

  /** A file `stem.ext` whose stem has no dot is renamed `stem_suffix.ext`
      under the output folder: `x.tif` becomes `x_modified.tif` and
      `a.b.tif` becomes `a_modified.b.tif`. */
  lemma RenamesStem(stem: string, ext: string, suffix: string, outFolder: string)
    requires '.' !in stem && '/' !in stem && '/' !in ext && '/' !in suffix
    ensures AddSuffix(stem + "." + ext, suffix, outFolder) == PathJoin(outFolder, stem + "_" + suffix + "." + ext)
  {
    var f := stem + "." + ext;
    assert f[|stem|] == '.';
    assert f[..|stem|] == stem && f[|stem| + 1..] == ext;
    assert FirstIndex(f, '.') == |stem|;
    SuffixInBasename(f, suffix);
    BasenameOfPlain(stem);
  }

  /** A '/' follows the first dot of a path whose directory prefix holds a
      dot before its final '/'. */
  lemma SlashAfterFirstDot(prefix: string, name: string)
    requires |prefix| > 0 && prefix[|prefix| - 1] == '/'
    requires '.' in prefix && FirstIndex(prefix, '.') < |prefix| - 1
    ensures '.' in prefix + name && '/' in (prefix + name)[FirstIndex(prefix + name, '.') + 1..]
  {
    var f := prefix + name;
    FirstIndexConcat(prefix, name, '.');
    var i := FirstIndex(f, '.');
    assert f[|prefix| - 1] == '/';
    assert f[i + 1..][|prefix| - 1 - (i + 1)] == '/';
  }

  /** The basename of a name below a directory prefix ending in '/' is the name. */
  lemma BasenameBelow(prefix: string, name: string)
    requires |prefix| > 0 && prefix[|prefix| - 1] == '/' && '/' !in name
    ensures Basename(prefix + name) == name
  {
    BasenameConcat(prefix, name);
    assert prefix == prefix[..|prefix| - 1] + ['/'];
    BasenameSnoc(prefix[..|prefix| - 1], '/');
    assert "" + name == name;
  }

  /** A file below a directory prefix that ends in '/' and holds a dot
      before that '/' keeps its bare name, whatever the suffix. */
  lemma DotInPrefixDropsSuffix(prefix: string, name: string, suffix: string)
    requires |prefix| > 0 && prefix[|prefix| - 1] == '/' && '/' !in name
    requires '.' in prefix && FirstIndex(prefix, '.') < |prefix| - 1
    ensures OutputName(prefix + name, suffix) == name
  {
    SlashAfterFirstDot(prefix, name);
    SuffixLostInDirectory(prefix + name, suffix);
    BasenameBelow(prefix, name);
  }

  /** When the input folder holds a dot (`./in`, `data.v2`), the modified
      and the predicted name of every file in it are the same path, so the
      prediction written at line 172 replaces the augmented raster written at
      line 106. */
  lemma DotInFolderCollides(folder: string, name: string, outFolder: string)
    requires '.' in folder && '/' !in name
    ensures AddSuffix(PathJoin(folder, name), "modified", outFolder) == PathJoin(outFolder, name)
    ensures AddSuffix(PathJoin(folder, name), "predicted", outFolder) == PathJoin(outFolder, name)
  {
    var prefix := if folder[|folder| - 1] == '/' then folder else folder + "/";
    assert PathJoin(folder, name) == prefix + name by {
      if |name| > 0 { assert name[0] in name; }
    }
    FirstIndexConcat(folder, prefix[|folder|..], '.');
    assert prefix == folder + prefix[|folder|..];
    assert FirstIndex(prefix, '.') < |prefix| - 1 by {
      var i := FirstIndex(folder, '.');
      assert folder[i] == '.';
    }
    DotInPrefixDropsSuffix(prefix, name, "modified");
    DotInPrefixDropsSuffix(prefix, name, "predicted");
  }
}
