/**
 * The POSIX flavour of Node's `path` module, as far as the backend uses it: `basename`,
 * `extname` and `join`.
 */
module NodePath {

  /** The path without its trailing `/` characters. */
  function StripTrailingSlashes(p: string): (r: string)
    ensures |r| <= |p| && r == p[..|r|]
    ensures r == [] || r[|r| - 1] != '/'
    ensures forall i :: |r| <= i < |p| ==> p[i] == '/'
  {
    if p != [] && p[|p| - 1] == '/' then StripTrailingSlashes(p[..|p| - 1]) else p
  }

  /** The characters after the last `/`. */
  function AfterLastSlash(p: string): (r: string)
    ensures |r| <= |p| && r == p[|p| - |r|..]
    ensures '/' !in r
    ensures |r| < |p| ==> p[|p| - |r| - 1] == '/'
  {
    if p == [] || p[|p| - 1] == '/' then []
    else AfterLastSlash(p[..|p| - 1]) + [p[|p| - 1]]
  }

  /** `path.basename(p)`: the last path segment, trailing separators ignored. */
  function Basename(p: string): (r: string)
    ensures '/' !in r
    ensures |r| <= |p|
  {
    AfterLastSlash(StripTrailingSlashes(p))
  }

  /** Index of the last `.` in `s`, if any. */
  function LastDot(s: string): (k: int)
    ensures -1 <= k < |s|
    ensures k >= 0 ==> s[k] == '.'
    ensures forall i :: k < i < |s| ==> s[i] != '.'
  {
    if s == [] then -1
    else if s[|s| - 1] == '.' then |s| - 1
    else LastDot(s[..|s| - 1])
  }

  /**
   * `path.extname(p)`: from the last `.` of the last segment to its end; empty when the segment
   * has no `.`, when its only leading character is that `.` (".profile"), or when it is "..".
   */
  function Extname(p: string): (r: string)
    ensures r == [] || r[0] == '.'
    ensures '/' !in r
    ensures |r| <= |Basename(p)| && r == Basename(p)[|Basename(p)| - |r|..]
    ensures r != [] ==> '.' !in r[1..]
  {
    var b := Basename(p);
    var k := LastDot(b);
    if k <= 0 || b == ".." then [] else b[k..]
  }

  /** `path.join(dir, name)` for a directory and a plain file name. */
  function Join(dir: string, name: string): (r: string)
    ensures |r| == |dir| + 1 + |name|
  {
    dir + "/" + name
  }

  /** The file name a path was joined from is its basename again. */
  lemma BasenameOfJoin(dir: string, name: string)
    requires name != [] && '/' !in name
    ensures Basename(Join(dir, name)) == name
  {
    var p := Join(dir, name);
    assert StripTrailingSlashes(p) == p;
    AfterLastSlashOfSuffix(dir + "/", name);
  }

  lemma {:induction false} AfterLastSlashOfSuffix(pre: string, name: string)
    requires pre != [] && pre[|pre| - 1] == '/' && '/' !in name
    ensures AfterLastSlash(pre + name) == name
    decreases |name|
  {
    if name == [] {
      assert pre + name == pre;
    } else {
      var p := pre + name;
      assert p[..|p| - 1] == pre + name[..|name| - 1];
      AfterLastSlashOfSuffix(pre, name[..|name| - 1]);
      assert name == name[..|name| - 1] + [name[|name| - 1]];
    }
  }

  /**
   * Appending an extension to a stem without dots or separators gives a file name whose
   * extension is exactly that extension.
   */
  lemma ExtnameOfStemAndExtension(stem: string, ext: string)
    requires stem != [] && '.' !in stem && '/' !in stem
    requires ext == [] || ext[0] == '.'
    requires '/' !in ext && (ext != [] ==> '.' !in ext[1..])
    ensures Extname(stem + ext) == ext
  {
    var p := stem + ext;
    NoSlashInConcat(stem, ext);
    BasenameOfPlainName(p);
    if ext == [] {
      assert p == stem;
      LastDotNone(stem);
    } else {
      LastDotOfExtension(stem, ext);
      assert p[|stem|..] == ext;
      assert p != ".." by { assert p[0] == stem[0]; }
    }
  }

  lemma NoSlashInConcat(a: string, b: string)
    requires '/' !in a && '/' !in b
    ensures '/' !in a + b
  {
    forall i | 0 <= i < |a + b| ensures (a + b)[i] != '/' {
      if i >= |a| { assert (a + b)[i] == b[i - |a|]; }
    }
  }

  /** A name without separators is its own basename. */
  lemma BasenameOfPlainName(p: string)
    requires p != [] && '/' !in p
    ensures Basename(p) == p
  {
    assert p[|p| - 1] != '/';
    assert StripTrailingSlashes(p) == p;
    AfterLastSlashNoSlash(p);
  }

  lemma LastDotNone(s: string)
    requires '.' !in s
    ensures LastDot(s) == -1
  {
  }

  lemma LastDotOfExtension(stem: string, ext: string)
    requires ext != [] && ext[0] == '.' && '.' !in ext[1..]
    ensures LastDot(stem + ext) == |stem|
  {
    var p := stem + ext;
    assert p[|stem|] == '.';
    forall i | |stem| < i < |p| ensures p[i] != '.' {
      assert p[i] == ext[1..][i - |stem| - 1];
    }
    LastDotIs(p, |stem|);
  }

  lemma {:induction false} AfterLastSlashNoSlash(p: string)
    requires '/' !in p
    ensures AfterLastSlash(p) == p
  {
    if p != [] {
      AfterLastSlashNoSlash(p[..|p| - 1]);
      assert p == p[..|p| - 1] + [p[|p| - 1]];
    }
  }

  lemma {:induction false} LastDotIs(s: string, k: nat)
    requires k < |s| && s[k] == '.'
    requires forall i :: k < i < |s| ==> s[i] != '.'
    ensures LastDot(s) == k
    decreases |s|
  {
    if k < |s| - 1 {
      LastDotIs(s[..|s| - 1], k);
    }
  }
}
