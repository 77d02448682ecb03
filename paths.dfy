/**
 * The part of Go's `path/filepath` the converter uses, for '/'-separated paths:
 * `Ext`, `Base`, `Dir` and `Join`. `Clean` is modelled only as far as removing the
 * trailing separators of a directory and the "." of a relative directory.
 */
module Paths {
  import opened Strings

  const Separator := '/'

  /** The index of the last `c` in `s`, or -1 when `s` has none. */
  function LastIndex(s: string, c: char): (k: int)
    ensures -1 <= k < |s|
    ensures k == -1 ==> c !in s
    ensures k >= 0 ==> s[k] == c
    ensures forall j :: k < j < |s| ==> s[j] != c
  {
    if s == [] then -1
    else if s[|s| - 1] == c then |s| - 1
    else
      var k := LastIndex(s[..|s| - 1], c);
      assert s == s[..|s| - 1] + [s[|s| - 1]];
      k
  }

  /** The final element of `p`: everything after its last separator. */
  function FinalElement(p: string): string {
    p[LastIndex(p, Separator) + 1..]
  }

  /**
   * `filepath.Ext`: the suffix of `p` that starts at the last '.' of its final element,
   * or "" when the final element has no '.'.
   */
  function Ext(p: string): (r: string)
    ensures |r| <= |FinalElement(p)| && r == p[|p| - |r|..]
    ensures r == [] <==> '.' !in FinalElement(p)
    ensures r != [] ==> r[0] == '.' && forall j :: 1 <= j < |r| ==> r[j] != '.'
  {
    var e := FinalElement(p);
    var k := LastIndex(e, '.');
    if k < 0 then [] else e[k..]
  }

  /** `p` without the separators at its end. */
  function StripTrailingSeparators(p: string): (q: string)
    ensures |q| <= |p| && q == p[..|q|]
    ensures q == [] || q[|q| - 1] != Separator
    ensures forall k :: |q| <= k < |p| ==> p[k] == Separator
  {
    if p != [] && p[|p| - 1] == Separator then StripTrailingSeparators(p[..|p| - 1]) else p
  }

  /** `filepath.Base`: the last element, after trailing separators are removed. */
  function Base(p: string): (r: string)
    ensures r != []
    ensures r == [Separator] || Separator !in r
  {
    if p == [] then "."
    else
      var q := StripTrailingSeparators(p);
      if q == [] then [Separator] else FinalElement(q)
  }

  /** `filepath.Dir`: everything up to the last separator, without trailing separators. */
  function Dir(p: string): (r: string)
    ensures r != []
    ensures r == [Separator] || r[|r| - 1] != Separator
  {
    var prefix := p[..|p| - |FinalElement(p)|];
    if prefix == [] then "."
    else
      var q := StripTrailingSeparators(prefix);
      if q == [] then [Separator] else q
  }

  /** `filepath.Join` of two elements. */
  function Join(dir: string, name: string): (r: string)
    ensures |name| <= |r|
  {
    if dir == [] || dir == "." then name
    else if name == [] then dir
    else if dir[|dir| - 1] == Separator then dir + name
    else dir + [Separator] + name
  }

  /** The joined path ends with the name that was joined on. */
  lemma JoinEndsWithName(dir: string, name: string)
    ensures HasSuffix(Join(dir, name), name)
  {
    var r := Join(dir, name);
    assert r[|r| - |name|..] == name;
  }

  /** `p` names something below its directory: its final element is not empty. */
  predicate NamesEntry(p: string) {
    FinalElement(p) != []
  }

  /** For a path that names an entry, `Base` is its final element. */
  lemma BaseOfEntry(p: string)
    requires NamesEntry(p)
    ensures Base(p) == FinalElement(p)
  {
    assert StripTrailingSeparators(p) == p;
  }

  lemma {:induction false} FinalElementOfAppend(prefix: string, name: string)
    requires Separator !in name
    ensures FinalElement(prefix + [Separator] + name) == name
    decreases |name|
  {
    var p := prefix + [Separator] + name;
    if name == [] {
    } else {
      assert p[..|p| - 1] == prefix + [Separator] + name[..|name| - 1];
      FinalElementOfAppend(prefix, name[..|name| - 1]);
      assert name == name[..|name| - 1] + [name[|name| - 1]];
    }
  }

  /** The directory of `/name` is the root. */
  lemma DirOfRootChild(name: string)
    requires Separator !in name
    ensures Dir([Separator] + name) == [Separator]
  {
    var p := [Separator] + name;
    FinalElementOfAppend([], name);
    assert [] + [Separator] + name == p;
    assert p[..|p| - |name|] == [Separator];
  }

  /**
   * Joining a directory produced by `Dir` with a plain file name gives a path whose
   * directory is that directory again and whose base is that name.
   */
  lemma JoinDirInverse(p: string, name: string)
    requires name != [] && Separator !in name
    ensures Dir(Join(Dir(p), name)) == Dir(p)
    ensures Base(Join(Dir(p), name)) == name
    ensures FinalElement(Join(Dir(p), name)) == name
  {
    var d := Dir(p);
    var j := Join(d, name);
    if d == "." {
      assert j == name;
      DirOfName(name);
      FinalElementOfName(name);
    } else if d[|d| - 1] == Separator {
      assert d == [Separator];
      assert j == [Separator] + name;
      DirOfRootChild(name);
      FinalElementOfAppend([], name);
      assert [] + [Separator] + name == j;
    } else {
      JoinChild(d, name);
      DirOfChild(d, name);
      FinalElementOfAppend(d, name);
    }
    BaseOfEntry(j);
  }

  /** `LastIndex` finds the last occurrence: any `k` holding `c` with no `c` after it is the one. */
  lemma LastIndexUnique(s: string, c: char, k: int)
    requires 0 <= k < |s| && s[k] == c
    requires forall j :: k < j < |s| ==> s[j] != c
    ensures LastIndex(s, c) == k
  {
    assert s[k] in s;
  }

  /**
   * `Ext` is the one suffix of the final element that starts with '.' and has no other '.':
   * whenever such a suffix exists, it is what `Ext` returns.
   */
  lemma ExtOfName(p: string, ext: string)
    requires ext != [] && ext[0] == '.' && forall j :: 1 <= j < |ext| ==> ext[j] != '.'
    requires |ext| <= |FinalElement(p)| && FinalElement(p)[|FinalElement(p)| - |ext|..] == ext
    ensures Ext(p) == ext
  {
    var e := FinalElement(p);
    var j := |e| - |ext|;
    assert e[j] == ext[0];
    forall i | j < i < |e| ensures e[i] != '.' {
      assert e[i] == ext[i - j];
    }
    LastIndexUnique(e, '.', j);
  }

  /** A path without separators is its own final element. */
  lemma FinalElementOfName(name: string)
    requires Separator !in name
    ensures FinalElement(name) == name
  {
  }

  lemma StripOneSeparator(dir: string)
    requires dir != [] && dir[|dir| - 1] != Separator
    ensures StripTrailingSeparators(dir + [Separator]) == dir
  {
    assert (dir + [Separator])[..|dir|] == dir;
  }

  /** A bare file name lies in the current directory. */
  lemma DirOfName(name: string)
    requires Separator !in name
    ensures Dir(name) == "."
  {
    FinalElementOfName(name);
    assert name[..0] == [];
  }

  /** The directory of `dir/name` is `dir`. */
  lemma DirOfChild(dir: string, name: string)
    requires dir != [] && dir[|dir| - 1] != Separator
    requires Separator !in name
    ensures Dir(dir + [Separator] + name) == dir
  {
    var p := dir + [Separator] + name;
    FinalElementOfAppend(dir, name);
    assert p[..|p| - |name|] == dir + [Separator];
    StripOneSeparator(dir);
  }

  /** Joining puts exactly one separator between a directory and a name. */
  lemma JoinChild(dir: string, name: string)
    requires dir != [] && dir != "." && dir[|dir| - 1] != Separator
    requires name != []
    ensures Join(dir, name) == dir + [Separator] + name
  {
  }

  /** `ext` is what `Ext` splits off the file name `stem + ext`. */
  predicate SplitsAsExtension(stem: string, ext: string) {
    if ext == [] then '.' !in stem
    else ext[0] == '.' && forall j :: 1 <= j < |ext| ==> ext[j] != '.'
  }

  lemma ExtOfSplitName(p: string, stem: string, ext: string)
    requires FinalElement(p) == stem + ext
    requires SplitsAsExtension(stem, ext)
    ensures Ext(p) == ext
  {
    var name := FinalElement(p);
    if ext == [] {
      assert '.' !in name;
    } else {
      assert name[|name| - |ext|..] == ext;
      ExtOfName(p, ext);
    }
  }

  /** The final element holds no separator. */
  lemma FinalElementHasNoSeparator(p: string)
    ensures Separator !in FinalElement(p)
  {
    var k := LastIndex(p, Separator);
    var name := p[k + 1..];
    assert FinalElement(p) == name;
    if k >= 0 {
      forall j | 0 <= j < |name| ensures name[j] != Separator {
        assert name[j] == p[k + 1 + j];
      }
    }
  }

  /** The extension is the tail of the final element; what comes before it is the stem. */
  lemma ExtSplitsFinalElement(p: string)
    ensures var name := FinalElement(p);
      |Ext(p)| <= |name| && name[..|name| - |Ext(p)|] + Ext(p) == name
  {
    var name := FinalElement(p);
    var k := LastIndex(name, '.');
    if k < 0 {
      assert Ext(p) == [];
      assert name[..|name|] == name;
    } else {
      assert Ext(p) == name[k..];
      assert name[..k] + name[k..] == name;
    }
  }
}
