/** The output-name derivation, on POSIX paths as Boost.Filesystem (version 3) treats them:
    `filename()`, `extension()`, `replace_extension()` and `operator/`. */
module Paths {

  /** Index just past the last occurrence of `c` in `s`, or 0 when `c` does not occur. */
  function AfterLast(s: string, c: char): (k: nat)
    ensures k <= |s|
  {
    if s == [] then 0
    else if s[|s| - 1] == c then |s|
    else AfterLast(s[..|s| - 1], c)
  }

  /** The path is made of separators only, as "/" and "//" are. */
  predicate OnlySeparators(p: string) {
    p != [] && forall i :: 0 <= i < |p| ==> p[i] == '/'
  }

  /** `path::filename()`: the last component, or "." when the path ends in a separator after a
      component. A path made of separators only is its root: "/" for one or three and more
      separators, and "//" itself, which Boost reads as a root name. */
  function FileName(p: string): (r: string)
    ensures |r| <= |p|
    ensures p != [] ==> r != []
  {
    if OnlySeparators(p) then (if |p| == 2 then p else "/")
    else
      var k := AfterLast(p, '/');
      if 0 < k == |p| then "." else p[k..]
  }

  /** `path::extension()`: the file name from its last '.' on; empty when the file name is "."
      or "..", has no '.', or the path ends in a separator (which covers a path of separators
      only, whose file name has no '.'). */
  function Extension(p: string): (r: string)
    ensures |r| <= |p|
  {
    var k := AfterLast(p, '/');
    if 0 < k == |p| then ""
    else
      var name := p[k..];
      if name == "." || name == ".." then ""
      else
        var d := AfterLast(name, '.');
        if d == 0 then "" else name[d - 1..]
  }

  /** The path with its extension removed. */
  function WithoutExtension(p: string): string {
    p[..|p| - |Extension(p)|]
  }

  /** `path::replace_extension(e)`: drop the extension, then append `e`, with a '.' put in front
      of it when it has none. */
  function ReplaceExtension(p: string, e: string): (r: string)
    ensures |r| == |p| - |Extension(p)| + |e| + (if e != [] && e[0] != '.' then 1 else 0)
  {
    if e == [] then WithoutExtension(p)
    else if e[0] == '.' then WithoutExtension(p) + e
    else WithoutExtension(p) + "." + e
  }

  /** `operator/`: appends `name`, with a separator in between unless `root` is empty, already
      ends in one, or `name` starts with one. */
  function Join(root: string, name: string): (r: string)
    ensures |root| <= |r| && r[..|root|] == root
    ensures |name| <= |r| && r[|r| - |name|..] == name
  {
    if name == [] then root
    else if name[0] == '/' then root + name
    else if root != [] && root[|root| - 1] != '/' then root + "/" + name
    else root + name
  }

  /** The name the recorder's outputs are labelled with: the input name without its directory
      and extension. */
  function SessionTag(input: string): (r: string)
    ensures |r| <= |input|
  {
    FileName(ReplaceExtension(input, ""))
  }

  /** The path of one output file: the directory joined with the tag, its extension replaced. */
  function OutputPath(root: string, tag: string, ext: string): (r: string)
    ensures |root| <= |r| && r[..|root|] == root
  {
    Join(root, ReplaceExtension(tag, ext))
  }

  /** `replace_extension(e)` keeps everything before the old extension and ends in `e`. */
  lemma ReplaceExtensionParts(p: string, e: string)
    ensures var r := ReplaceExtension(p, e);
      && r[..|WithoutExtension(p)|] == WithoutExtension(p)
      && r[|r| - |e|..] == e
  {
    var w := WithoutExtension(p);
    if e == [] {
      ConcatParts(w, e);
    } else if e[0] == '.' {
      ConcatParts(w, e);
    } else {
      ConcatAssoc(w, ".", e);
      ConcatParts(w, "." + e);
      ConcatParts(w + ".", e);
    }
  }

  lemma ConcatParts(a: string, b: string)
    ensures (a + b)[..|a|] == a && (a + b)[|a|..] == b
  {
  }

  /** `AfterLast` finds the last occurrence: `c` is just before the index, and not after it. */
  lemma {:induction false} AfterLastIsLast(s: string, c: char)
    ensures var k := AfterLast(s, c); c !in s[k..] && (k > 0 ==> s[k - 1] == c)
  {
    if s != [] && s[|s| - 1] != c {
      var k := AfterLast(s[..|s| - 1], c);
      AfterLastIsLast(s[..|s| - 1], c);
      assert s[k..] == s[..|s| - 1][k..] + [s[|s| - 1]];
    }
  }

  /** A file name contains a separator exactly when the path is made of separators only ("/"
      and "//" are their own file names); otherwise it is free of them. */
  lemma FileNameHasNoSeparator(p: string)
    ensures '/' in FileName(p) <==> OnlySeparators(p)
  {
    if OnlySeparators(p) {
      assert FileName(p)[0] == '/';
    } else {
      AfterLastIsLast(p, '/');
    }
  }

  /** An extension is empty, or a '.' followed by no other '.' and no separator. */
  lemma ExtensionShape(p: string)
    ensures var r := Extension(p); r == [] || (r[0] == '.' && '.' !in r[1..] && '/' !in r)
  {
    var k := AfterLast(p, '/');
    if !(0 < k == |p|) {
      var name := p[k..];
      if name != "." && name != ".." {
        var d := AfterLast(name, '.');
        if d != 0 {
          AfterLastIsLast(p, '/');
          AfterLastIsLast(name, '.');
          var r := name[d - 1..];
          assert r[1..] == name[d..];
          assert '/' !in r by {
            forall i | 0 <= i < |r| ensures r[i] != '/' {
              assert r[i] == name[d - 1 + i];
            }
          }
        }
      }
    }
  }

  /** An extension is the tail of the path it was taken from. */
  lemma ExtensionIsSuffix(p: string)
    ensures p[|p| - |Extension(p)|..] == Extension(p)
  {
    var k := AfterLast(p, '/');
    var name := p[k..];
    if 0 < k == |p| || name == "." || name == ".." || AfterLast(name, '.') == 0 {
      assert p[|p|..] == [];
    } else {
      TailOfTail(p, k, AfterLast(name, '.') - 1);
    }
  }

  lemma TailOfTail(s: string, i: nat, j: nat)
    requires i + j <= |s|
    ensures s[i..][j..] == s[i + j..] && |s| - |s[i..][j..]| == i + j
  {
  }

  lemma AfterLastAbsent(s: string, c: char)
    requires c !in s
    ensures AfterLast(s, c) == 0
  {
  }

  lemma {:induction false} AfterLastSkips(s: string, t: string, c: char)
    requires c !in t
    ensures AfterLast(s + t, c) == AfterLast(s, c)
  {
    if t != [] {
      assert (s + t)[..|s + t| - 1] == s + t[..|t| - 1];
      AfterLastSkips(s, t[..|t| - 1], c);
    } else {
      assert s + t == s;
    }
  }

  /** The file name of "dir/base" is "base". */
  lemma FileNameAfterDir(dir: string, base: string)
    requires dir == [] || dir[|dir| - 1] == '/'
    requires base != [] && '/' !in base
    ensures FileName(dir + base) == base
  {
    assert (dir + base)[|dir + base| - 1] == base[|base| - 1] && base[|base| - 1] in base;
    assert AfterLast(dir, '/') == |dir|;
    AfterLastSkips(dir, base, '/');
    assert (dir + base)[|dir|..] == base;
  }

  /** A directory in front of a file name does not change its extension. */
  lemma ExtensionAfterDir(dir: string, name: string)
    requires dir == [] || dir[|dir| - 1] == '/'
    requires name != [] && '/' !in name
    ensures Extension(dir + name) == Extension(name)
  {
    assert AfterLast(dir, '/') == |dir|;
    AfterLastSkips(dir, name, '/');
    assert (dir + name)[|dir|..] == name;
    AfterLastAbsent(name, '/');
    assert name[0..] == name;
  }

  /** The extension of "base.ext" is ".ext". */
  lemma ExtensionOfDotted(base: string, ext: string)
    requires '/' !in base
    requires ext != [] && '/' !in ext && '.' !in ext
    ensures Extension(base + "." + ext) == "." + ext
  {
    var name := base + "." + ext;
    assert '/' !in name;
    AfterLastAbsent(name, '/');
    assert name[0..] == name;
    assert name[|name| - 1] == ext[|ext| - 1];
    assert name != "." && name != "..";
    AfterLastSkips(base + ".", ext, '.');
    assert AfterLast(base + ".", '.') == |base| + 1;
    assert name[|base|..] == "." + ext;
  }

  /** Input "dir/base.ext" (with or without the directory) gives the tag "base": the directory
      and the last extension go, any earlier dots in `base` stay. A `dir` of exactly "//" is
      read here as a plain directory; Boost reads "//base.ext" as a root name instead. */
  lemma SessionTagOf(dir: string, base: string, ext: string)
    requires dir == [] || dir[|dir| - 1] == '/'
    requires base != [] && '/' !in base
    requires ext != [] && '/' !in ext && '.' !in ext
    ensures SessionTag(dir + (base + "." + ext)) == base
  {
    StripExtensionAfterDir(dir, base, ext);
    FileNameAfterDir(dir, base);
  }

  /** Removing the extension of "dir/base.ext" leaves "dir/base". */
  lemma StripExtensionAfterDir(dir: string, base: string, ext: string)
    requires dir == [] || dir[|dir| - 1] == '/'
    requires base != [] && '/' !in base
    requires ext != [] && '/' !in ext && '.' !in ext
    ensures ReplaceExtension(dir + (base + "." + ext), "") == dir + base
  {
    var name := base + "." + ext;
    var p := dir + name;
    ConcatAssoc(dir, base, "." + ext);
    ConcatAssoc(base, ".", ext);
    NoSeparatorIn(base, "." + ext);
    ExtensionAfterDir(dir, name);
    ExtensionOfDotted(base, ext);
    DropExtension(p, dir + base);
  }

  lemma ConcatAssoc(a: string, b: string, c: string)
    ensures a + (b + c) == (a + b) + c
  {
  }

  lemma NoSeparatorIn(s: string, t: string)
    requires '/' !in s && '/' !in t
    ensures '/' !in s + t
  {
    forall i | 0 <= i < |s + t| ensures (s + t)[i] != '/' {
      if i < |s| { assert (s + t)[i] == s[i]; } else { assert (s + t)[i] == t[i - |s|]; }
    }
  }

  lemma DropExtension(p: string, stem: string)
    requires |stem| <= |p| && p[..|stem|] == stem
    requires |Extension(p)| == |p| - |stem|
    ensures ReplaceExtension(p, "") == stem
  {
  }

  /** Replacing the extension of a tag (which has no directory) by "." + `e`, as for ".csv",
      ".hog" and ".avi": the result is the tag without its own extension followed by the new one,
      it is a bare file name, and its extension is the new one. A tag without a '.' simply gets
      the extension appended. */
  lemma OutputNameOf(tag: string, e: string)
    requires '/' !in tag
    requires e != [] && '.' !in e && '/' !in e
    ensures ReplaceExtension(tag, "." + e) == WithoutExtension(tag) + "." + e
    ensures '/' !in ReplaceExtension(tag, "." + e)
    ensures FileName(ReplaceExtension(tag, "." + e)) == ReplaceExtension(tag, "." + e)
    ensures Extension(ReplaceExtension(tag, "." + e)) == "." + e
    ensures '.' !in tag ==> ReplaceExtension(tag, "." + e) == tag + "." + e
  {
    var w := WithoutExtension(tag);
    assert '/' !in w by { PrefixAvoids(tag, |w|, '/'); }
    ConcatAssoc(w, ".", e);
    ExtensionOfDotted(w, e);
    NoSeparatorIn(w, "." + e);
    FileNameOfBare(w + ("." + e));
    if '.' !in tag {
      ExtensionOfUndotted(tag);
      assert w == tag[..|tag|] == tag;
    }
  }

  /** A name with no separator is its own file name. */
  lemma FileNameOfBare(name: string)
    requires name != [] && '/' !in name
    ensures FileName(name) == name
  {
    assert name[|name| - 1] in name;
    AfterLastAbsent(name, '/');
    assert name[0..] == name;
  }

  /** A bare name without a '.' has no extension. */
  lemma ExtensionOfUndotted(name: string)
    requires '/' !in name && '.' !in name
    ensures Extension(name) == []
  {
    AfterLastAbsent(name, '/');
    assert name[0..] == name;
    AfterLastAbsent(name, '.');
  }

  lemma PrefixAvoids(s: string, n: nat, c: char)
    requires c !in s && n <= |s|
    ensures c !in s[..n]
  {
    assert forall i :: 0 <= i < n ==> s[..n][i] == s[i];
  }


  /** What `Join` puts in front of a name that does not start with a separator is empty or ends
      in a separator. */
  lemma JoinPrefix(root: string, name: string) returns (prefix: string)
    requires name != [] && name[0] != '/'
    ensures Join(root, name) == prefix + name
    ensures prefix == [] || prefix[|prefix| - 1] == '/'
  {
    if root != [] && root[|root| - 1] != '/' {
      prefix := root + "/";
      ConcatAssoc(root, "/", name);
    } else {
      prefix := root;
    }
  }

  /** The output file's name, read back from the joined path, is the name that was joined. A
      `root` of exactly "//" is taken as a plain directory; Boost reads "//name" as a root name
      instead. */
  lemma JoinFileName(root: string, name: string)
    requires name != [] && '/' !in name
    ensures FileName(Join(root, name)) == name
  {
    var prefix := JoinPrefix(root, name);
    FileNameAfterDir(prefix, name);
  }

  /** The file an output lands in, read back from its path: the tag with its own extension
      dropped and "." + `e` in its place, directly inside `root`. As in `JoinFileName`, a `root`
      of exactly "//" is taken as a plain directory, not as Boost's root name. */
  lemma OutputFileName(root: string, tag: string, e: string)
    requires '/' !in tag
    requires e != [] && '.' !in e && '/' !in e
    ensures FileName(OutputPath(root, tag, "." + e)) == WithoutExtension(tag) + "." + e
    ensures Extension(OutputPath(root, tag, "." + e)) == "." + e
  {
    OutputNameOf(tag, e);
    var name := ReplaceExtension(tag, "." + e);
    var prefix := JoinPrefix(root, name);
    FileNameAfterDir(prefix, name);
    ExtensionAfterDir(prefix, name);
  }

  /** From the input path to the name of an output file: input "dir/base.ext" gives `base` with
      its own extension, if it has one, replaced by "." + `e`. So "clip.mp4" gives "clip.csv",
      while "a.b.mp4" gives "a.csv" (see `DottedTagLosesLastPart`). As in `SessionTagOf`, a
      `dir` of exactly "//" is taken as a plain directory, not as Boost's root name. */
  lemma InputToOutputName(root: string, dir: string, base: string, ext: string, e: string)
    requires dir == [] || dir[|dir| - 1] == '/'
    requires base != [] && '/' !in base
    requires ext != [] && '/' !in ext && '.' !in ext
    requires e != [] && '.' !in e && '/' !in e
    ensures FileName(OutputPath(root, SessionTag(dir + (base + "." + ext)), "." + e)) == WithoutExtension(base) + "." + e
    ensures '.' !in base ==> FileName(OutputPath(root, SessionTag(dir + (base + "." + ext)), "." + e)) == base + "." + e
  {
    SessionTagOf(dir, base, ext);
    OutputFileName(root, base, e);
    if '.' !in base {
      ExtensionOfUndotted(base);
      assert WithoutExtension(base) == base[..|base|] == base;
    }
  }

  /** A tag that still holds a '.' loses its last dotted part too when the output extension
      replaces its own. */
  lemma DottedTagLosesLastPart(stem: string, mid: string)
    requires '/' !in stem
    requires mid != [] && '/' !in mid && '.' !in mid
    ensures WithoutExtension(stem + "." + mid) == stem
  {
    ExtensionOfDotted(stem, mid);
    assert (stem + "." + mid)[..|stem|] == stem;
  }

  /** Separator-only paths are their own file names when they are "/" or "//"; a longer run of
      separators gives "/". */
  lemma FileNameOfSeparators()
    ensures FileName("/") == "/" && FileName("//") == "//" && FileName("///") == "/"
  {
    var one: string, two: string, three: string := "/", "//", "///";
    assert OnlySeparators(one) && OnlySeparators(two) && OnlySeparators(three);
  }

  /** The input "/" is its own tag: `filename()` of the root is the root, so the CSV output is
      the output directory followed by "/.csv", the separator coming from the tag. */
  lemma RootInputTag(root: string)
    ensures SessionTag("/") == "/"
    ensures OutputPath(root, SessionTag("/"), ".csv") == root + "/.csv"
  {
    var slash: string := "/";
    assert AfterLast(slash, '/') == 1;
    assert Extension(slash) == [];
    assert WithoutExtension(slash) == slash by { assert slash[..1] == slash; }
    assert OnlySeparators(slash);
    assert FileName(slash) == slash;
    assert ReplaceExtension(slash, ".csv") == slash + ".csv";
    assert slash + ".csv" == "/.csv";
  }

}
