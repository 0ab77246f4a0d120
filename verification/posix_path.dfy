/**
 * The two functions of Python's `posixpath` that the core relies on to build
 * storage keys: `os.path.splitext` and `os.path.join` (POSIX flavour, where
 * `/` is the only separator).
 */
module PosixPath {
  import opened Text

  /** `s.rfind(c)`: the index of the last `c` in `s`, or -1. */
  function RFind(s: string, c: char): (r: int)
    ensures -1 <= r < |s|
    ensures r >= 0 ==> s[r] == c
    ensures forall j :: r < j < |s| ==> s[j] != c
  {
    if s == [] then -1
    else if s[|s| - 1] == c then |s| - 1
    else RFind(s[..|s| - 1], c)
  }

  /** Some character of `p[lo..hi]` is not a dot. */
  predicate HasNonDot(p: string, lo: int, hi: int) {
    exists i :: lo <= i < hi && 0 <= i < |p| && p[i] != '.'
  }

  /**
   * `os.path.splitext(p)`: the extension starts at the last `.` of the final
   * segment, provided some character other than `.` comes before that dot
   * within the segment (so `.bashrc` and `..a` have no extension); otherwise
   * the extension is empty.
   */
  function SplitExt(p: string): (r: (string, string))
    ensures r.0 + r.1 == p
    ensures r.1 != "" ==> r.1[0] == '.'
    ensures forall i :: 0 < i < |r.1| ==> r.1[i] != '.' && r.1[i] != '/'
  {
    var sep := RFind(p, '/');
    var dot := RFind(p, '.');
    if dot > sep && HasNonDot(p, sep + 1, dot) then (p[..dot], p[dot..]) else (p, "")
  }

  /** `splitext` finds an extension exactly when some dot of the final
      segment has a character other than a dot before it in that segment. */
  lemma {:induction false} SplitExtFindsExtension(p: string)
    ensures var sep := RFind(p, '/');
      SplitExt(p).1 != "" <==> exists i, j :: sep < i < j < |p| && p[i] != '.' && p[j] == '.'
  {
    var sep := RFind(p, '/');
    var dot := RFind(p, '.');
    if dot > sep && HasNonDot(p, sep + 1, dot) {
      var i :| sep + 1 <= i < dot && p[i] != '.';
      assert sep < i < dot < |p| && p[i] != '.' && p[dot] == '.';
    } else {
      forall i, j | sep < i < j < |p| && p[j] == '.' ensures p[i] == '.' {
        assert j <= dot;
      }
    }
  }

  /** The base part of `splitext` is empty only for the empty path. */
  lemma {:induction false} SplitExtBaseEmpty(p: string)
    ensures SplitExt(p).0 == "" <==> p == ""
  {
    var sep := RFind(p, '/');
    var dot := RFind(p, '.');
    if dot > sep && HasNonDot(p, sep + 1, dot) {
      var i :| sep + 1 <= i < dot && p[i] != '.';
      assert p[..dot][i] != '.';
    }
  }

  /** A name with no dot has no extension. */
  lemma {:induction false} SplitExtNoDot(p: string)
    requires forall i :: 0 <= i < |p| ==> p[i] != '.'
    ensures SplitExt(p) == (p, "")
  {
  }

  /** `base + "." + ext` splits back into `base` and `"." + ext` when the base
      is a non-empty run without dots or slashes and the extension has neither. */
  lemma {:induction false} SplitExtJoined(base: string, ext: string)
    requires base != []
    requires forall i :: 0 <= i < |base| ==> base[i] != '.' && base[i] != '/'
    requires forall i :: 0 <= i < |ext| ==> ext[i] != '.' && ext[i] != '/'
    ensures SplitExt(base + "." + ext) == (base, "." + ext)
  {
    var p := base + "." + ext;
    var dot := |base|;
    assert p[dot] == '.';
    assert forall j :: dot < j < |p| ==> p[j] == ext[j - dot - 1];
    assert RFind(p, '.') == dot;
    assert forall j :: 0 <= j < |p| ==> p[j] != '/';
    assert RFind(p, '/') == -1;
    assert p[0..dot][0] == base[0];
    assert p[..dot] == base;
    assert p[dot..] == "." + ext;
  }

  /** A path without slashes that does not start with a dot splits at its
      last dot. */
  lemma {:induction false} SplitExtAt(p: string, dot: int)
    requires 0 < dot < |p| && p[dot] == '.' && p[0] != '.'
    requires forall j :: 0 <= j < |p| ==> p[j] != '/'
    requires forall j :: dot < j < |p| ==> p[j] != '.'
    ensures SplitExt(p) == (p[..dot], p[dot..])
  {
    assert RFind(p, '.') == dot;
    assert RFind(p, '/') == -1;
    assert HasNonDot(p, 0, dot);
  }

  /**
   * `os.path.join(a, b)`: an absolute `b` replaces `a`; an empty `a` yields
   * `b`; an `a` that ends with `/` is followed directly by `b`; any other `a`
   * gets a `/` before `b` (see `JoinKeepsBoth`).
   */
  function Join(a: string, b: string): (r: string)
    ensures StartsWith(b, "/") ==> r == b
    ensures a == "" ==> r == b
    ensures !StartsWith(b, "/") && EndsWith(a, "/") ==> r == a + b
  {
    if StartsWith(b, "/") then b
    else if a == "" || a[|a| - 1] == '/' then a + b
    else a + "/" + b
  }

  /** A relative `b` is joined after `a`, with exactly one `/` between them
      when `a` is not empty. */
  lemma {:induction false} JoinKeepsBoth(a: string, b: string)
    requires !StartsWith(b, "/")
    ensures var r := Join(a, b);
      && StartsWith(r, a) && EndsWith(r, b) && |a| + |b| <= |r| <= |a| + |b| + 1
      && (a != "" ==> r[|r| - |b| - 1] == '/')
  {
    var r := Join(a, b);
    if a == "" || a[|a| - 1] == '/' {
      assert r == a + b;
      assert r[..|a|] == a && r[|r| - |b|..] == b;
    } else {
      assert r == a + "/" + b;
      assert r[..|a|] == a && r[|r| - |b|..] == b;
    }
  }

  /** For a fixed left side, `join` is injective on right sides that agree on
      whether they are absolute. */
  lemma {:induction false} JoinInjective(a: string, x: string, y: string)
    requires StartsWith(x, "/") == StartsWith(y, "/")
    requires Join(a, x) == Join(a, y)
    ensures x == y
  {
    if !StartsWith(x, "/") {
      JoinKeepsBoth(a, x);
      JoinKeepsBoth(a, y);
      var r := Join(a, x);
      assert |x| == |y|;
      assert x == r[|r| - |x|..] == y;
    }
  }
}
