/** Node's `path.extname` on POSIX paths, and the lower-cased extension the
    crawl classifies files by. */
module Paths {
  import opened JsString

  /** Index of the last occurrence of `c` in `s`, or -1 when there is none. */
  function LastIndexOf(s: string, c: char): (k: int)
    ensures -1 <= k < |s|
  {
    if s == [] then -1
    else if s[|s| - 1] == c then |s| - 1
    else LastIndexOf(s[..|s| - 1], c)
  }

  /** `LastIndexOf` finds `c`, and no `c` follows it. */
  lemma {:induction false} LastIndexOfSpec(s: string, c: char)
    ensures var k := LastIndexOf(s, c);
      (k >= 0 ==> s[k] == c) && forall i :: k < i < |s| ==> s[i] != c
  {
    if s != [] && s[|s| - 1] != c {
      LastIndexOfSpec(s[..|s| - 1], c);
    }
  }

  /** The last path component: everything after the last `/`. */
  function BaseName(p: string): (b: string)
    ensures |b| <= |p|
  {
    p[LastIndexOf(p, '/') + 1..]
  }

  /** The base name is a suffix of the path free of `/`, and it is either the
      whole path or preceded by a `/`. */
  lemma BaseNameSpec(p: string)
    ensures var b := BaseName(p);
      b == p[|p| - |b|..] && '/' !in b && (|b| < |p| ==> p[|p| - |b| - 1] == '/')
  {
    LastIndexOfSpec(p, '/');
    var k := LastIndexOf(p, '/');
    var b := BaseName(p);
    forall i | 0 <= i < |b| ensures b[i] != '/' {
      assert b[i] == p[k + 1 + i];
    }
  }

  /** The extension Node reads off one path component `b`: the suffix that
      starts at its last `.`, or "" when `b` has no `.`, has its only `.` in
      front (a dot-file such as `.gitignore`), or is `..`. */
  function ExtOfBase(b: string): (e: string)
    ensures |e| <= |b|
  {
    var d := LastIndexOf(b, '.');
    if d <= 0 || b == ".." then "" else b[d..]
  }

  /** The extension is empty exactly for a component without a `.`, a
      dot-file whose only `.` is in front, and `..`; otherwise it is a proper
      suffix that starts with the last `.` and contains no other. */
  lemma ExtOfBaseSpec(b: string)
    ensures var e := ExtOfBase(b);
      (e == "" <==> ('.' !in b || (b[0] == '.' && '.' !in b[1..]) || b == ".."))
      && (e != "" ==> |e| < |b| && b == b[..|b| - |e|] + e && e[0] == '.' && '.' !in e[1..])
  {
    LastIndexOfSpec(b, '.');
    var d := LastIndexOf(b, '.');
    assert d > 0 ==> b[d] in b[1..] by {
      if d > 0 { assert b[1..][d - 1] == b[d]; }
    }
    assert d > 0 ==> '.' !in b[d + 1..] by {
      if d > 0 {
        var t := b[d + 1..];
        forall i | 0 <= i < |t| ensures t[i] != '.' {
          assert t[i] == b[d + 1 + i];
        }
      }
    }
    assert d == 0 ==> '.' !in b[1..] by {
      if d == 0 {
        var t := b[1..];
        forall i | 0 <= i < |t| ensures t[i] != '.' {
          assert t[i] == b[1 + i];
        }
      }
    }
    assert d < 0 ==> '.' !in b;
  }

  /** `path.extname`: the extension of the last component. */
  function ExtName(p: string): string
  {
    ExtOfBase(BaseName(p))
  }

  /** The extension of `dir/name` is that of `name`: the crawl classifies a file
      by the extension of its entry name and the extractor dispatches on the
      extension of its full path, and the two agree. */
  lemma ExtNameOfJoin(dir: string, name: string)
    requires '/' !in name
    ensures ExtName(dir + "/" + name) == ExtName(name)
  {
    var p := dir + "/" + name;
    LastIndexOfSpec(p, '/');
    LastIndexOfSpec(name, '/');
    var k := LastIndexOf(p, '/');
    assert p[|dir|] == '/';
    assert k == |dir|;
    assert BaseName(p) == name;
    assert LastIndexOf(name, '/') == -1;
    assert BaseName(name) == name;
  }

  lemma {:induction false} LastIndexOfLower(s: string, c: char)
    requires c == '.' || c == '/'
    ensures LastIndexOf(Lower(s), c) == LastIndexOf(s, c)
  {
    if s != [] {
      assert Lower(s)[..|s| - 1] == Lower(s[..|s| - 1]);
      LastIndexOfLower(s[..|s| - 1], c);
      assert Lower(s)[|s| - 1] == c <==> s[|s| - 1] == c;
    }
  }

  lemma BaseNameLower(p: string)
    ensures BaseName(Lower(p)) == Lower(BaseName(p))
  {
    LastIndexOfLower(p, '/');
    var k := LastIndexOf(p, '/');
    LowerSlice(p, k + 1, |p|);
  }

  lemma ExtOfBaseLower(b: string)
    ensures ExtOfBase(Lower(b)) == Lower(ExtOfBase(b))
  {
    LastIndexOfLower(b, '.');
    var d := LastIndexOf(b, '.');
    var q := Lower(b);
    assert LastIndexOf(q, '.') == d;
    if b == ".." {
      assert q == "..";
    } else if d > 0 {
      LowerSlice(b, d, |b|);
      assert ExtOfBase(q) == q[d..];
    }
  }

  /** Lower-casing a path lower-cases its extension and nothing more, so the
      lower-cased extension of a name depends only on the lower-cased name. */
  lemma ExtNameLower(p: string)
    ensures ExtName(Lower(p)) == Lower(ExtName(p))
  {
    BaseNameLower(p);
    ExtOfBaseLower(BaseName(p));
  }
}
