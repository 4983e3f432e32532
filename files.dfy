/**
  The path handling of `Resize` in run.py: `load_file_list`, which keeps the
  directory entries with a given suffix, and the output-name rewrite of
  `save_image`, which turns every `.tiff` into `.jpg`. The directory listing
  itself is a parameter: the model starts from the list of names.
 */
module Files {

  /** Python's `s.endswith(suffix)`. */
  predicate EndsWith(s: string, suffix: string) {
    |suffix| <= |s| && s[|s| - |suffix|..] == suffix
  }

  /** `s` ends with `suffix` exactly when it is some string followed by
      `suffix`. */
  lemma EndsWithIsSuffix(s: string, suffix: string)
    ensures EndsWith(s, suffix) <==> exists prefix :: s == prefix + suffix
  {
    if EndsWith(s, suffix) {
      assert s == s[..|s| - |suffix|] + suffix;
    }
  }

  /** The names in `names` that end with `suffix`, in listing order. */
  function Filter(names: seq<string>, suffix: string): (r: seq<string>)
    ensures |r| <= |names|
    ensures forall n :: n in r ==> n in names && EndsWith(n, suffix)
  {
    if names == [] then []
    else
      var last := names[|names| - 1];
      Filter(names[..|names| - 1], suffix) + (if EndsWith(last, suffix) then [last] else [])
  }

  /** Filtering a listing split in two filters each part and keeps them in
      order: the kept names form a subsequence in listing order. */
  lemma {:induction false} FilterAppend(a: seq<string>, b: seq<string>, suffix: string)
    ensures Filter(a + b, suffix) == Filter(a, suffix) + Filter(b, suffix)
  {
    if b == [] {
      assert a + b == a;
    } else {
      assert (a + b)[..|a + b| - 1] == a + b[..|b| - 1];
      FilterAppend(a, b[..|b| - 1], suffix);
    }
  }

  /** Every listed name that ends with the suffix is kept. */
  lemma {:induction false} FilterComplete(names: seq<string>, suffix: string, n: string)
    requires n in names && EndsWith(n, suffix)
    ensures n in Filter(names, suffix)
  {
    var last := names[|names| - 1];
    if n != last {
      assert n in names[..|names| - 1] by {
        var i :| 0 <= i < |names| && names[i] == n;
        assert i < |names| - 1;
        assert names[..|names| - 1][i] == n;
      }
      FilterComplete(names[..|names| - 1], suffix, n);
    }
  }

  /** `os.path.join(directory, name)` for two components, by the POSIX rules:
      an absolute name replaces the directory; otherwise a `/` is inserted
      unless the directory is empty or already ends with one. */
  function Join(directory: string, name: string): (r: string)
    ensures EndsWith(r, name)
    ensures !(|name| > 0 && name[0] == '/') ==> |directory| <= |r| && r[..|directory|] == directory
  {
    if |name| > 0 && name[0] == '/' then name
    else if directory == [] || directory[|directory| - 1] == '/' then directory + name
    else directory + "/" + name
  }

  /** Python's `s.replace(from, to)` for single characters. */
  function ReplaceChar(s: string, from: char, to: char): (r: string)
    ensures |r| == |s|
    ensures forall i :: 0 <= i < |s| ==> r[i] == if s[i] == from then to else s[i]
  {
    if s == [] then []
    else [if s[0] == from then to else s[0]] + ReplaceChar(s[1..], from, to)
  }

  /** `os.path.join(file_path, file_name).replace("\\", "/")`. */
  function FullName(directory: string, name: string): (r: string)
    ensures |r| == |Join(directory, name)|
    ensures forall i :: 0 <= i < |r| ==>
      r[i] == if Join(directory, name)[i] == '\\' then '/' else Join(directory, name)[i]
    ensures '\\' !in r
  {
    ReplaceChar(Join(directory, name), '\\', '/')
  }

  /** The three parallel lists `load_file_list` builds. */
  datatype FileList = FileList(full: seq<string>, paths: seq<string>, names: seq<string>)

  /** The lists built from `names`, one listed name at a time. */
  function Listed(endsWith: string, filePath: string, names: seq<string>): (r: FileList)
    ensures |r.full| == |r.paths| == |r.names| <= |names|
  {
    if names == [] then FileList([], [], [])
    else
      var prior := Listed(endsWith, filePath, names[..|names| - 1]);
      var name := names[|names| - 1];
      if EndsWith(name, endsWith) then
        FileList(prior.full + [FullName(filePath, name)], prior.paths + [filePath], prior.names + [name])
      else prior
  }

  /** The names collected are exactly the names that end with the suffix,
      in listing order. */
  lemma {:induction false} ListedNames(endsWith: string, filePath: string, names: seq<string>)
    ensures Listed(endsWith, filePath, names).names == Filter(names, endsWith)
  {
    if names != [] {
      ListedNames(endsWith, filePath, names[..|names| - 1]);
    }
  }

  /** Every directory collected is `filePath`. */
  lemma {:induction false} ListedPaths(endsWith: string, filePath: string, names: seq<string>)
    ensures forall i :: 0 <= i < |Listed(endsWith, filePath, names).paths| ==>
      Listed(endsWith, filePath, names).paths[i] == filePath
  {
    if names != [] {
      ListedPaths(endsWith, filePath, names[..|names| - 1]);
    }
  }

  /** Each full name collected is the full name of the name beside it. */
  lemma {:induction false} ListedFullNames(endsWith: string, filePath: string, names: seq<string>)
    ensures forall i :: 0 <= i < |Listed(endsWith, filePath, names).full| ==>
      Listed(endsWith, filePath, names).full[i] == FullName(filePath, Listed(endsWith, filePath, names).names[i])
  {
    if names != [] {
      var prior := Listed(endsWith, filePath, names[..|names| - 1]);
      var r := Listed(endsWith, filePath, names);
      ListedFullNames(endsWith, filePath, names[..|names| - 1]);
      forall i | 0 <= i < |r.full|
        ensures r.full[i] == FullName(filePath, r.names[i])
      {
        if i < |prior.full| {
          assert r.full[i] == prior.full[i] && r.names[i] == prior.names[i];
        }
      }
    }
  }

  /** `load_file_list`, over the names the directory listing returned: three
      parallel lists for the names ending with `endsWith`, in listing order —
      the full path with every backslash turned into a slash, the directory,
      and the bare name. */
  method LoadFileList(endsWith: string, filePath: string, fileNames: seq<string>)
    returns (fullResult: seq<string>, pathResult: seq<string>, nameResult: seq<string>)
    ensures FileList(fullResult, pathResult, nameResult) == Listed(endsWith, filePath, fileNames)
    ensures |fullResult| == |pathResult| == |nameResult|
    ensures nameResult == Filter(fileNames, endsWith)
    ensures forall i :: 0 <= i < |pathResult| ==> pathResult[i] == filePath
    ensures forall i :: 0 <= i < |fullResult| ==> fullResult[i] == FullName(filePath, nameResult[i])
    ensures forall i :: 0 <= i < |fullResult| ==> '\\' !in fullResult[i]
  {
    fullResult, pathResult, nameResult := [], [], [];
    for i := 0 to |fileNames|
      invariant FileList(fullResult, pathResult, nameResult) == Listed(endsWith, filePath, fileNames[..i])
    {
      var fileName := fileNames[i];
      assert fileNames[..i + 1][..i] == fileNames[..i];
      if EndsWith(fileName, endsWith) {
        var fullFileName := Join(filePath, fileName);
        fullFileName := ReplaceChar(fullFileName, '\\', '/');
        assert fullFileName == FullName(filePath, fileName);
        fullResult := fullResult + [fullFileName];
        pathResult := pathResult + [filePath];
        nameResult := nameResult + [fileName];
      }
    }
    assert fileNames[..|fileNames|] == fileNames;
    ListedNames(endsWith, filePath, fileNames);
    ListedPaths(endsWith, filePath, fileNames);
    ListedFullNames(endsWith, filePath, fileNames);
  }

  /** `pat` occurs in `s` starting at position `i`. */
  predicate OccursAt(s: string, pat: string, i: nat) {
    i + |pat| <= |s| && s[i..i + |pat|] == pat
  }

  ghost predicate Contains(s: string, pat: string) {
    exists i: nat :: OccursAt(s, pat, i)
  }

  /** Python's `s.replace(pat, with)` for a non-empty `pat`: occurrences are
      found left to right, without overlap, and each is replaced by `with`. */
  function ReplaceAll(s: string, pat: string, with: string): (r: string)
    requires |pat| > 0
    decreases |s|
  {
    if |s| < |pat| then s
    else if s[..|pat|] == pat then with + ReplaceAll(s[|pat|..], pat, with)
    else [s[0]] + ReplaceAll(s[1..], pat, with)
  }

  /** A string without an occurrence of the pattern is left as it is. */
  lemma {:induction false} ReplaceAllNoMatch(s: string, pat: string, with: string)
    requires |pat| > 0
    ensures !Contains(s, pat) ==> ReplaceAll(s, pat, with) == s
    decreases |s|
  {
    if !Contains(s, pat) && |s| >= |pat| {
      assert !OccursAt(s, pat, 0);
      assert !Contains(s[1..], pat) by {
        forall i: nat | OccursAt(s[1..], pat, i)
          ensures OccursAt(s, pat, i + 1)
        {
          assert s[1..][i..i + |pat|] == s[i + 1..i + 1 + |pat|];
        }
      }
      ReplaceAllNoMatch(s[1..], pat, with);
    }
  }

  /** A replacement no longer than the pattern never lengthens the string,
      and one no shorter never shortens it. */
  lemma {:induction false} ReplaceAllLength(s: string, pat: string, with: string)
    requires |pat| > 0
    ensures |with| <= |pat| ==> |ReplaceAll(s, pat, with)| <= |s|
    ensures |with| >= |pat| ==> |ReplaceAll(s, pat, with)| >= |s|
    decreases |s|
  {
    if |s| >= |pat| {
      if s[..|pat|] == pat {
        ReplaceAllLength(s[|pat|..], pat, with);
      } else {
        ReplaceAllLength(s[1..], pat, with);
      }
    }
  }

  /** The extension rewrite of `save_image`. */
  function TiffToJpg(path: string): string {
    ReplaceAll(path, ".tiff", ".jpg")
  }

  /** The path `save_image` writes to: `save_path/file_name` with every
      `.tiff` turned into `.jpg` (`TiffSplits` says what each one becomes). */
  function SaveImagePath(savePath: string, fileName: string): (r: string)
    ensures !Contains(r, ".tiff")
    ensures !Contains(savePath + "/" + fileName, ".tiff") ==> r == savePath + "/" + fileName
  {
    NoTiffRemains(savePath + "/" + fileName);
    ReplaceAllNoMatch(savePath + "/" + fileName, ".tiff", ".jpg");
    TiffToJpg(savePath + "/" + fileName)
  }

  /** One step of the left-to-right scan: an occurrence at the front is
      replaced, and otherwise the first character is kept. */
  lemma ReplaceAllStep(s: string, pat: string, with: string)
    requires |pat| > 0
    ensures OccursAt(s, pat, 0) ==> ReplaceAll(s, pat, with) == with + ReplaceAll(s[|pat|..], pat, with)
    ensures s != [] && !OccursAt(s, pat, 0) ==> ReplaceAll(s, pat, with) == [s[0]] + ReplaceAll(s[1..], pat, with)
  {
    if s != [] && |s| < |pat| {
      assert [s[0]] + s[1..] == s;
    }
  }

  lemma DropAppend(x: string, y: string, n: nat)
    requires n <= |x|
    ensures (x + y)[n..] == x[n..] + y
  {
  }

  lemma TakeAppend(x: string, y: string, n: nat)
    requires n <= |x|
    ensures (x + y)[..n] == x[..n]
  {
  }

  /** When the first character of the pattern occurs nowhere else in it, no
      occurrence can straddle the start of an occurrence: the pattern is
      replaced there and the text on either side is rewritten on its own. */
  lemma {:induction false} ReplaceAllSplits(a: string, b: string, pat: string, with: string)
    requires |pat| > 0
    requires pat[0] !in pat[1..]
    ensures ReplaceAll(a + pat + b, pat, with)
         == ReplaceAll(a, pat, with) + with + ReplaceAll(b, pat, with)
    decreases |a|
  {
    if a == [] {
      var u := a + pat + b;
      ReplaceAllStep(u, pat, with);
      assert OccursAt(u, pat, 0) && u[|pat|..] == b;
    } else if OccursAt(a, pat, 0) {
      ReplaceAllSplits(a[|pat|..], b, pat, with);
      SplitsAfterMatch(a, b, pat, with);
    } else {
      ReplaceAllSplits(a[1..], b, pat, with);
      SplitsAfterSkip(a, b, pat, with);
    }
  }

  /** The inductive step of `ReplaceAllSplits` when `a` starts with the
      pattern. */
  lemma SplitsAfterMatch(a: string, b: string, pat: string, with: string)
    requires |pat| > 0 && OccursAt(a, pat, 0)
    requires ReplaceAll(a[|pat|..] + pat + b, pat, with)
          == ReplaceAll(a[|pat|..], pat, with) + with + ReplaceAll(b, pat, with)
    ensures ReplaceAll(a + pat + b, pat, with)
         == ReplaceAll(a, pat, with) + with + ReplaceAll(b, pat, with)
  {
    var u := a + pat + b;
    TakeAppend(a, pat + b, |pat|);
    assert a + (pat + b) == u;
    ReplaceAllStep(u, pat, with);
    ReplaceAllStep(a, pat, with);
    DropAppend(a, pat, |pat|);
    DropAppend(a + pat, b, |pat|);
    AppendAssoc(with, ReplaceAll(a[|pat|..], pat, with), with, ReplaceAll(b, pat, with));
  }

  /** The inductive step of `ReplaceAllSplits` when `a` does not start with
      the pattern. */
  lemma SplitsAfterSkip(a: string, b: string, pat: string, with: string)
    requires |pat| > 0 && pat[0] !in pat[1..]
    requires a != [] && !OccursAt(a, pat, 0)
    requires ReplaceAll(a[1..] + pat + b, pat, with)
          == ReplaceAll(a[1..], pat, with) + with + ReplaceAll(b, pat, with)
    ensures ReplaceAll(a + pat + b, pat, with)
         == ReplaceAll(a, pat, with) + with + ReplaceAll(b, pat, with)
  {
    var u := a + pat + b;
    NoMatchBeforePattern(a, b, pat);
    ReplaceAllStep(u, pat, with);
    ReplaceAllStep(a, pat, with);
    DropAppend(a, pat, 1);
    DropAppend(a + pat, b, 1);
    AppendAssoc([a[0]], ReplaceAll(a[1..], pat, with), with, ReplaceAll(b, pat, with));
  }

  /** Text that does not start with the pattern still does not when the
      pattern follows it, since the pattern's first character opens no later
      position of the pattern. */
  lemma NoMatchBeforePattern(a: string, b: string, pat: string)
    requires |pat| > 0 && pat[0] !in pat[1..]
    requires a != [] && !OccursAt(a, pat, 0)
    ensures !OccursAt(a + pat + b, pat, 0)
  {
    var u := a + pat + b;
    if |a| < |pat| {
      assert u[..|pat|][|a|] == u[|a|] == pat[0];
      assert pat[|a|] == pat[1..][|a| - 1];
    } else {
      TakeAppend(a, pat + b, |pat|);
      assert a + (pat + b) == u;
    }
  }

  lemma AppendAssoc(w: string, x: string, y: string, z: string)
    ensures w + (x + y + z) == (w + x) + y + z
  {
  }

  /** Each `.tiff` becomes `.jpg`, wherever it stands, and the text on either
      side is rewritten on its own. With `ReplaceAllNoMatch` this determines
      the rewrite of every path. */
  lemma TiffSplits(a: string, b: string)
    ensures TiffToJpg(a + ".tiff" + b) == TiffToJpg(a) + ".jpg" + TiffToJpg(b)
  {
    ReplaceAllSplits(a, b, ".tiff", ".jpg");
  }

  /** The common case: a trailing `.tiff` extension becomes `.jpg`. */
  lemma TiffSuffixBecomesJpg(stem: string)
    ensures TiffToJpg(stem + ".tiff") == TiffToJpg(stem) + ".jpg"
  {
    TiffSplits(stem, "");
    assert stem + ".tiff" + "" == stem + ".tiff";
  }

  /** The worked example: a `.tiff` in the directory part is rewritten too. */
  lemma TiffInDirectoryRewritten()
    ensures SaveImagePath("out.tiff", "a.png") == "out.jpg/a.png"
  {
    OutTiffRewritten();
    assert "out.tiff" + "/" + "a.png" == "out" + ".tiff" + "/a.png";
  }

  lemma OutTiffRewritten()
    ensures TiffToJpg("out" + ".tiff" + "/a.png") == "out.jpg/a.png"
  {
    TiffSplits("out", "/a.png");
    assert TiffToJpg("out") == "out";
    assert TiffToJpg("a.png") == "a.png" by {
      assert "a.png"[..5] != ".tiff";
      assert "a.png"[1..] == ".png";
    }
    assert TiffToJpg("/a.png") == "/a.png" by {
      assert "/a.png"[..5] != ".tiff";
      assert "/a.png"[1..] == "a.png";
    }
  }

  /** If the rewrite of `t` starts with a dot-free `w`, then `t` starts with
      `w`: every replacement begins with a dot. */
  lemma {:induction false} DotFreePrefix(t: string, w: string)
    requires '.' !in w
    requires |w| <= |TiffToJpg(t)| && TiffToJpg(t)[..|w|] == w
    ensures |w| <= |t| && t[..|w|] == w
    decreases |t|
  {
    var r := TiffToJpg(t);
    if w != [] && |t| >= 5 {
      assert r[0] == w[0];
      if t[..5] != ".tiff" {
        assert r == [t[0]] + TiffToJpg(t[1..]);
        assert TiffToJpg(t[1..])[..|w| - 1] == w[1..];
        DotFreePrefix(t[1..], w[1..]);
        assert t[..|w|] == [t[0]] + t[1..][..|w| - 1];
      }
    }
  }

  /** Putting `.jpg` in front of a string without `.tiff` creates none. */
  lemma JpgPrefixAddsNoTiff(rest: string)
    requires !Contains(rest, ".tiff")
    ensures !Contains(".jpg" + rest, ".tiff")
  {
    var r := ".jpg" + rest;
    forall i: nat | OccursAt(r, ".tiff", i)
      ensures false
    {
      assert r[i..i + 5][0] == r[i];
      assert r[i..i + 5][1] == r[i + 1];
      if i >= 4 {
        assert rest[i - 4..i + 1] == r[i..i + 5];
        assert OccursAt(rest, ".tiff", i - 4);
      }
    }
  }

  /** Putting one character in front of a string without `.tiff` creates one
      only at the front. */
  lemma CharPrefixAddsTiffOnlyAtFront(c: char, rest: string)
    requires !Contains(rest, ".tiff")
    ensures Contains([c] + rest, ".tiff") ==> OccursAt([c] + rest, ".tiff", 0)
  {
    var r := [c] + rest;
    forall i: nat | OccursAt(r, ".tiff", i) && i >= 1
      ensures false
    {
      assert rest[i - 1..i + 4] == r[i..i + 5];
      assert OccursAt(rest, ".tiff", i - 1);
    }
  }

  /** After the rewrite no `.tiff` is left anywhere in the path. */
  lemma {:induction false} NoTiffRemains(s: string)
    ensures !Contains(TiffToJpg(s), ".tiff")
    decreases |s|
  {
    if |s| >= 5 {
      if s[..5] == ".tiff" {
        NoTiffRemains(s[5..]);
        JpgPrefixAddsNoTiff(TiffToJpg(s[5..]));
      } else {
        var rest := TiffToJpg(s[1..]);
        var r := [s[0]] + rest;
        assert TiffToJpg(s) == r;
        NoTiffRemains(s[1..]);
        CharPrefixAddsTiffOnlyAtFront(s[0], rest);
        if OccursAt(r, ".tiff", 0) {
          assert rest[..4] == r[..5][1..];
          DotFreePrefix(s[1..], "tiff");
        }
      }
    }
  }
}
