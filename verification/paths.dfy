/**
 * The POSIX flavour of Python's `os.path` as the collector uses it:
 * `basename`, two-argument `join` and `splitext`, with `/` as the separator
 * and `.` as the extension separator.
 */
module Paths {

  /** `s.rfind(c)`: the last index holding `c`, or -1. */
  function LastIndexOf(s: string, c: char): (r: int)
    ensures -1 <= r < |s|
    ensures r >= 0 ==> s[r] == c
    ensures forall k :: r < k < |s| ==> s[k] != c
    decreases |s|
  {
    if s == [] then -1
    else if s[|s| - 1] == c then |s| - 1
    else LastIndexOf(s[..|s| - 1], c)
  }

  /** `os.path.basename`: a tail of `p` that holds no `/`. */
  function Basename(p: string): (r: string)
    ensures '/' !in r
    ensures |r| <= |p| && p[|p| - |r|..] == r
  {
    p[LastIndexOf(p, '/') + 1..]
  }

  /** The basename is the longest such tail: what precedes it, if anything, is a `/`. */
  lemma BasenameIsLongest(p: string)
    ensures |Basename(p)| < |p| ==> p[|p| - |Basename(p)| - 1] == '/'
  {
  }

  /** A name without `/` is its own basename, and so is the tail after the last `/`. */
  lemma BasenameOfName(dir: string, name: string)
    requires '/' !in name
    ensures Basename(name) == name
    ensures Basename(dir + "/" + name) == name
  {
    var p := dir + "/" + name;
    assert p[|dir|] == '/';
    assert p[|dir| + 1..] == name;
  }

  /** `os.path.join(a, b)` with two arguments. */
  function Join(a: string, b: string): string {
    if |b| > 0 && b[0] == '/' then b
    else if a == [] || a[|a| - 1] == '/' then a + b
    else a + "/" + b
  }

  /** Joining a plain file name onto a directory gives a path with that basename. */
  lemma JoinBasename(dir: string, name: string)
    requires '/' !in name
    ensures Basename(Join(dir, name)) == name
  {
    assert |name| > 0 ==> name[0] != '/';
    if dir == [] {
      assert Join(dir, name) == name;
      BasenameOfName(dir, name);
    } else if dir[|dir| - 1] == '/' {
      var d := dir[..|dir| - 1];
      assert dir == d + "/";
      assert Join(dir, name) == d + "/" + name;
      BasenameOfName(d, name);
    } else {
      assert Join(dir, name) == dir + "/" + name;
      BasenameOfName(dir, name);
    }
  }

  /** Some character of `p[lo..hi]` is not a dot. */
  predicate HasNonDot(p: string, lo: nat, hi: nat)
    requires lo <= hi <= |p|
  {
    exists k :: lo <= k < hi && p[k] != '.'
  }

  /**
   * `os.path.splitext`: splits off the part from the last dot of the last
   * path component, unless that component holds only dots before it (so
   * `.json` has no extension).
   */
  function SplitExt(p: string): (r: (string, string))
    ensures r.0 + r.1 == p
    ensures r.1 == [] || (r.1[0] == '.' && '.' !in r.1[1..] && '/' !in r.1)
  {
    var sepIndex := LastIndexOf(p, '/');
    var dotIndex := LastIndexOf(p, '.');
    if dotIndex > sepIndex && HasNonDot(p, sepIndex + 1, dotIndex) then
      assert p[..dotIndex] + p[dotIndex..] == p;
      (p[..dotIndex], p[dotIndex..])
    else
      (p, [])
  }

  /**
   * A plain name followed by `.` and a dot-free extension splits back into
   * the two, provided the name is not all dots.
   */
  lemma SplitExtOfName(stem: string, ext: string)
    requires '/' !in stem && '/' !in ext && '.' !in ext
    requires exists k :: 0 <= k < |stem| && stem[k] != '.'
    ensures SplitExt(stem + "." + ext) == (stem, "." + ext)
  {
    var p := stem + "." + ext;
    assert p[|stem|] == '.';
    var k :| 0 <= k < |stem| && stem[k] != '.';
    assert p[k] == stem[k];
    assert p[..|stem|] == stem;
    assert p[|stem|..] == "." + ext;
  }

  /**
   * A name whose part before the last dot is all dots has no extension:
   * `splitext` leaves it whole.
   */
  lemma SplitExtOfDotsOnly(stem: string, ext: string)
    requires '/' !in stem && '/' !in ext && '.' !in ext
    requires forall k :: 0 <= k < |stem| ==> stem[k] == '.'
    ensures SplitExt(stem + "." + ext) == (stem + "." + ext, "")
  {
    var p := stem + "." + ext;
    assert p[|stem|] == '.';
    assert forall k :: 0 <= k < |stem| ==> p[k] == stem[k];
  }
}
