/**
 * The parts of Node's POSIX `path` module the pipeline uses. A path is a
 * string; `resolve` and `relative` work on its '/'-separated segments with
 * "." and ".." normalised away. The process working directory is taken to
 * be "/", so a relative path resolves as if it were rooted there.
 */
module Paths {
  import opened Strings

  const Sep: char := '/'

  /** A segment that survives normalisation. */
  predicate IsSegment(x: string) {
    x != "" && x != "." && x != ".." && Sep !in x
  }

  predicate AllSegments(segs: seq<string>) {
    forall k :: 0 <= k < |segs| ==> IsSegment(segs[k])
  }

  /** One step of normalisation: "" and "." vanish, ".." drops the last kept segment. */
  function Push(stack: seq<string>, seg: string): seq<string> {
    if seg == "" || seg == "." then stack
    else if seg == ".." then (if stack == [] then [] else stack[..|stack| - 1])
    else stack + [seg]
  }

  /** Normalises a list of separator-free pieces. */
  function Normalize(pieces: seq<string>): (r: seq<string>)
    requires forall k :: 0 <= k < |pieces| ==> Sep !in pieces[k]
    ensures AllSegments(r)
  {
    if pieces == [] then []
    else Push(Normalize(pieces[..|pieces| - 1]), pieces[|pieces| - 1])
  }

  /** The normalised segments of a path. */
  function Canonical(p: string): (r: seq<string>)
    ensures AllSegments(r)
  {
    Normalize(Split(p, Sep))
  }

  /** The absolute path made of the given segments. */
  function Absolute(segs: seq<string>): string {
    "/" + Join(segs, "/")
  }

  /** `path.resolve(dir, p)` */
  function Resolve(dir: string, p: string): string {
    if StartsWith(p, "/") then Absolute(Canonical(p))
    else Absolute(Canonical(dir + "/" + p))
  }

  /** Length of the longest common prefix of two segment lists. */
  function CommonPrefixLength(a: seq<string>, b: seq<string>): (k: nat)
    ensures k <= |a| && k <= |b| && a[..k] == b[..k]
    ensures k < |a| && k < |b| ==> a[k] != b[k]
  {
    if a == [] || b == [] || a[0] != b[0] then 0
    else
      var k := CommonPrefixLength(a[1..], b[1..]);
      assert a[..k + 1] == [a[0]] + a[1..][..k];
      assert b[..k + 1] == [b[0]] + b[1..][..k];
      k + 1
  }

  function Repeat(x: string, n: nat): (r: seq<string>)
    ensures |r| == n && forall k :: 0 <= k < n ==> r[k] == x
  {
    if n == 0 then [] else [x] + Repeat(x, n - 1)
  }

  /** `path.relative(from, to)`: climb out of `from` with "..", then descend into `to`. */
  function Relative(from: string, to: string): string {
    var f := Canonical(from);
    var t := Canonical(to);
    var k := CommonPrefixLength(f, t);
    Join(Repeat("..", |f| - k) + t[k..], "/")
  }

  /** `p` without its trailing separators. */
  function StripTrailing(p: string): (r: string)
    ensures |r| <= |p| && r == p[..|r|]
    ensures r == [] || r[|r| - 1] != Sep
  {
    if p != [] && p[|p| - 1] == Sep then StripTrailing(p[..|p| - 1]) else p
  }

  /** `path.dirname(p)` */
  function Dirname(p: string): string {
    if p == "" then "."
    else
      var q := StripTrailing(p);
      if q == "" then "/"
      else
        var k := LastIndexOf(q, Sep);
        if k == -1 then "." else if k == 0 then "/" else q[..k]
  }

  /** `path.basename(p)` */
  function Basename(p: string): string {
    var q := StripTrailing(p);
    var k := LastIndexOf(q, Sep);
    q[k + 1..]
  }

  /** `path.extname(p)`: from the last "." of the base name, unless that dot leads the name. */
  function Extname(p: string): string {
    var b := Basename(p);
    var k := LastIndexOf(b, '.');
    if k <= 0 then "" else b[k..]
  }

  // ---------------------------------------------------------------------------
  // Lemmas about children of a directory
  // ---------------------------------------------------------------------------

  /** Splitting at a separator whose right side holds no separator ends with that side. */
  lemma {:induction false} SplitSnoc(a: string, b: string, c: char)
    requires c !in b
    ensures Split(a + [c] + b, c) == Split(a, c) + [b]
  {
    if a == [] {
      assert a + [c] + b == [c] + b;
      assert ([c] + b)[1..] == b;
      SplitNoSeparator(b, c);
    } else {
      var s := a + [c] + b;
      assert s[0] == a[0];
      assert s[1..] == a[1..] + [c] + b;
      SplitSnoc(a[1..], b, c);
    }
  }

  /** The canonical segments of `d/x`, for a segment `x`, are those of `d` followed by `x`. */
  lemma CanonicalChild(d: string, x: string)
    requires IsSegment(x)
    ensures Canonical(d + "/" + x) == Canonical(d) + [x]
  {
    SplitSnoc(d, x, Sep);
    assert d + "/" + x == d + [Sep] + x;
    var pieces := Split(d, Sep) + [x];
    assert pieces[..|pieces| - 1] == Split(d, Sep);
  }

  /** A "." component changes nothing. */
  lemma CanonicalDot(d: string)
    ensures Canonical(d + "/" + ".") == Canonical(d)
  {
    SplitSnoc(d, ".", Sep);
    assert d + "/" + "." == d + [Sep] + ".";
    var pieces := Split(d, Sep) + ["."];
    assert pieces[..|pieces| - 1] == Split(d, Sep);
  }

  /** `path.resolve(dir, "./x")` for a segment `x` is `x` inside the normalised `dir`. */
  lemma ResolveDotSegment(dir: string, x: string)
    requires IsSegment(x)
    ensures Resolve(dir, "./" + x) == Absolute(Canonical(dir) + [x])
  {
    assert ("./" + x)[..1] == ".";
    assert dir + "/" + ("./" + x) == (dir + "/" + ".") + "/" + x;
    CanonicalChild(dir + "/" + ".", x);
    CanonicalDot(dir);
  }

  /** Joining with one more piece appends the separator and the piece. */
  lemma {:induction false} JoinSnoc(segs: seq<string>, x: string, sep: string)
    requires segs != []
    ensures Join(segs + [x], sep) == Join(segs, sep) + sep + x
  {
    if |segs| == 1 {
      assert (segs + [x])[1..] == [x];
    } else {
      assert (segs + [x])[1..] == segs[1..] + [x];
      JoinSnoc(segs[1..], x, sep);
    }
  }

  /** A join starts with its first piece. */
  lemma JoinHead(segs: seq<string>, sep: string)
    requires segs != []
    ensures StartsWith(Join(segs, sep), segs[0])
  {
  }

  /** The last separator of `a/x`, for `x` free of separators, is the one before `x`. */
  lemma LastSeparator(a: string, x: string)
    requires Sep !in x
    ensures LastIndexOf(a + [Sep] + x, Sep) == |a|
  {
    var s := a + [Sep] + x;
    assert s[|a|] == Sep;
    assert s[|a| + 1..] == x;
  }

  /** The directory of a joined list of segments drops its last segment. */
  lemma DirnameOfJoin(segs: seq<string>, x: string)
    requires AllSegments(segs) && IsSegment(x)
    ensures Dirname(Join(segs + [x], "/")) == if segs == [] then "." else Join(segs, "/")
  {
    if segs == [] {
      assert segs + [x] == [x];
      DirnameOfSegment(x);
    } else {
      var a := Join(segs, "/");
      JoinSnoc(segs, x, "/");
      JoinHead(segs, "/");
      assert IsSegment(segs[0]);
      DirnameOfChild(a, x);
    }
  }

  /** A lone segment lies in the current directory. */
  lemma DirnameOfSegment(x: string)
    requires IsSegment(x)
    ensures Dirname(x) == "."
  {
    assert x[|x| - 1] != Sep;
    assert LastIndexOf(x, Sep) == -1;
  }

  /** The directory of `a/x`, for a non-empty `a` not starting at the root, is `a`. */
  lemma DirnameOfChild(a: string, x: string)
    requires IsSegment(x) && a != "" && a[0] != Sep
    ensures Dirname(a + "/" + x) == a
  {
    LastSeparator(a, x);
    assert a + "/" + x == a + [Sep] + x;
    var p := a + [Sep] + x;
    assert p[|p| - 1] == x[|x| - 1];
  }

  /** The base name and extension of `d/n`, for a segment `n`, are those of `n`. */
  lemma ExtnameChild(d: string, n: string)
    requires IsSegment(n)
    ensures Basename(d + "/" + n) == n
    ensures Extname(d + "/" + n) == Extname(n)
  {
    var p := d + [Sep] + n;
    assert d + "/" + n == p;
    assert p[|p| - 1] == n[|n| - 1];
    LastSeparator(d, n);
    assert p[|d| + 1..] == n;
    assert LastIndexOf(n, Sep) == -1;
  }
}
