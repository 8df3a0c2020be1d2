/** The pieces of Python's `str` methods and POSIX `os.path` that the converters
    apply to file and directory names. */
module PyPath {
  import opened Wrappers

  /** `s.rfind(c)`: the last index of `c` in `s`, or -1 when `c` does not occur. */
  function RFind(s: string, c: char): (k: int)
    ensures -1 <= k < |s|
    ensures k >= 0 ==> s[k] == c
    ensures forall j :: k < j < |s| ==> s[j] != c
  {
    if |s| == 0 then -1
    else if s[|s| - 1] == c then |s| - 1
    else RFind(s[..|s| - 1], c)
  }

  /** `s.endswith(suffix)`: `s` is some string followed by `suffix`. */
  predicate EndsWith(s: string, suffix: string): (b: bool)
    ensures b <==> exists pre :: s == pre + suffix
  {
    if |suffix| <= |s| && s[|s| - |suffix|..] == suffix then
      assert s == s[..|s| - |suffix|] + suffix;
      true
    else
      false
  }

  /** `d` is the dot that starts the extension of path `p`: the last dot of the last
      path component, with a character other than a dot before it in that component
      (so ".bashrc" has no extension). */
  ghost predicate IsExtensionDot(p: string, d: int) {
    && 0 <= d < |p| && p[d] == '.'
    && (forall j :: d < j < |p| ==> p[j] != '.' && p[j] != '/')
    && exists k :: 0 <= k < d && p[k] != '.' && p[k] != '/' && forall j :: k < j < d ==> p[j] != '/'
  }

  ghost predicate HasExtension(p: string) {
    exists d :: IsExtensionDot(p, d)
  }

  /** `os.path.splitext(p)[0]`: `p` without its extension. */
  function SplitExtRoot(p: string): (root: string)
    ensures |root| <= |p| && root == p[..|root|]
    ensures root == p <==> !HasExtension(p)
    ensures root != p ==> IsExtensionDot(p, |root|)
  {
    var sep := RFind(p, '/');
    var dot := RFind(p, '.');
    ExtensionDotIsLastDot(p);
    if dot > sep && exists k :: sep < k < dot && p[k] != '.' then
      var k :| sep < k < dot && p[k] != '.';
      assert p[k] != '/';
      assert IsExtensionDot(p, dot);
      p[..dot]
    else
      p
  }

  /** An extension dot is the last dot of the path, after its last slash, and has a
      character other than a dot between that slash and itself. */
  lemma ExtensionDotIsLastDot(p: string)
    ensures forall d :: IsExtensionDot(p, d) ==>
      && d == RFind(p, '.')
      && RFind(p, '/') < d
      && exists k :: RFind(p, '/') < k < d && p[k] != '.'
  {
    forall d | IsExtensionDot(p, d)
      ensures d == RFind(p, '.') && RFind(p, '/') < d
      ensures exists k :: RFind(p, '/') < k < d && p[k] != '.'
    {
      var k :| 0 <= k < d && p[k] != '.' && p[k] != '/' && forall j :: k < j < d ==> p[j] != '/';
      assert RFind(p, '/') < k;
    }
  }

  /** `os.path.basename(p)`: the part after the last slash. */
  function Basename(p: string): (b: string)
    ensures forall i :: 0 <= i < |b| ==> b[i] != '/'
    ensures |b| <= |p| && p[|p| - |b|..] == b
    ensures |b| < |p| ==> p[|p| - |b| - 1] == '/'
  {
    p[RFind(p, '/') + 1..]
  }

  /** `os.path.join(a, b)` (POSIX): an absolute `b` replaces `a`; otherwise `b` follows
      `a` after exactly one separating slash, which is added only when `a` is non-empty
      and does not already end in one. */
  function Join(a: string, b: string): (p: string)
    ensures |b| > 0 && b[0] == '/' ==> p == b
    ensures !(|b| > 0 && b[0] == '/') ==>
      && |p| == |a| + |b| + (if |a| > 0 && a[|a| - 1] != '/' then 1 else 0)
      && p[..|a|] == a && p[|p| - |b|..] == b
      && (|p| > |b| ==> p[|p| - |b| - 1] == '/')
  {
    if |b| > 0 && b[0] == '/' then b
    else if |a| == 0 || a[|a| - 1] == '/' then a + b
    else a + "/" + b
  }

  /** A name that does not start with a slash follows the directory after at most one
      added slash. */
  lemma JoinRelative(a: string, b: string)
    requires |b| == 0 || b[0] != '/'
    ensures Join(a, b) == a + (if |a| == 0 || a[|a| - 1] == '/' then "" else "/") + b
  {
    if |a| == 0 || a[|a| - 1] == '/' {
      assert Join(a, b) == a + b;
      assert a + "" + b == a + b;
    } else {
      assert Join(a, b) == a + "/" + b;
    }
  }

  /** Joining a slash-free name under any directory yields a path whose basename is that name. */
  lemma BasenameOfJoin(a: string, b: string)
    requires forall i :: 0 <= i < |b| ==> b[i] != '/'
    ensures Basename(Join(a, b)) == b
  {
    var p := Join(a, b);
    assert p[|p| - |b|..] == b;
    if |p| > |b| {
      assert p[|p| - |b| - 1] == '/';
    }
    var r := RFind(p, '/');
    assert r == |p| - |b| - 1;
  }

  /** Joining a slash-free name under a directory ends the path with that name. */
  lemma JoinEndsWithName(a: string, b: string)
    requires forall i :: 0 <= i < |b| ==> b[i] != '/'
    ensures EndsWith(Join(a, b), b)
  {
    var p := Join(a, b);
    assert p[|p| - |b|..] == b;
  }

  /** A suffix of a suffix is a suffix. */
  lemma EndsWithTrans(s: string, t: string, u: string)
    requires EndsWith(s, t) && EndsWith(t, u)
    ensures EndsWith(s, u)
  {
    assert s[|s| - |u|..] == s[|s| - |t|..][|t| - |u|..];
  }

  /** `t` holds no '/': it is a single path component. */
  predicate SlashFree(t: string)
  {
    forall k :: 0 <= k < |t| ==> t[k] != '/'
  }

  /**
   * `comp` is the text between the slashes at `j` and `i` of `s` (`j` is -1
   * when no slash precedes it), and `i` is the last slash of `s`.
   */
  predicate LastButOneAt(s: string, comp: string, j: int, i: int)
  {
    && -1 <= j < i < |s| && s[j + 1..i] == comp && s[i] == '/'
    && (j >= 0 ==> s[j] == '/')
    && SlashFree(s[i + 1..])
  }

  /** `s.split('/')[-2]`: the path component before the last slash; an `IndexError`
      when `s` holds no slash. The component is slash-free, starts the string or
      follows a slash, and is followed by the last slash of `s`. */
  function SecondLastComponent(s: string): (r: Result<string>)
    ensures r.Err? <==> forall i :: 0 <= i < |s| ==> s[i] != '/'
    ensures r.Err? ==> r.error == IndexError
    ensures r.Ok? ==> forall i :: 0 <= i < |r.value| ==> r.value[i] != '/'
    ensures r.Ok? ==> exists j, i :: LastButOneAt(s, r.value, j, i)
  {
    var i := RFind(s, '/');
    if i < 0 then Err(IndexError)
    else
      var j := RFind(s[..i], '/');
      var comp := s[j + 1..i];
      assert forall k :: 0 <= k < |comp| ==> comp[k] == s[..i][j + 1 + k];
      assert j >= 0 ==> s[j] == s[..i][j];
      var last := s[i + 1..];
      assert forall k :: 0 <= k < |last| ==> last[k] == s[i + 1 + k];
      assert LastButOneAt(s, comp, j, i);
      Ok(comp)
  }
}
