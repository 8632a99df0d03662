/** Path helpers with Windows (`ntpath`) semantics, as the application runs
    on Windows: both `/` and `\` separate components. Drive letters and UNC
    prefixes are not modelled. */
module Paths {
  import Text

  predicate IsSep(c: char) {
    c == '/' || c == '\\'
  }

  /** `os.path.join(a, b)`: `b` alone when it is rooted, otherwise `a` and
      `b` with one backslash between them unless `a` is empty or already
      ends with a separator. */
  function Join(a: string, b: string): string {
    if |b| > 0 && IsSep(b[0]) then b
    else if |a| > 0 && !IsSep(a[|a| - 1]) then a + "\\" + b
    else a + b
  }

  /** A rooted tail replaces the head; otherwise the result starts with the
      head, and it always ends with the tail. */
  lemma JoinShape(a: string, b: string)
    ensures |b| > 0 && IsSep(b[0]) ==> Join(a, b) == b
    ensures (|b| == 0 || !IsSep(b[0])) ==> |Join(a, b)| >= |a| && Join(a, b)[..|a|] == a
    ensures |Join(a, b)| >= |b| && Join(a, b)[|Join(a, b)| - |b|..] == b
  {
    var r := Join(a, b);
    if !(|b| > 0 && IsSep(b[0])) && |a| > 0 && !IsSep(a[|a| - 1]) {
      assert r == a + "\\" + b;
      assert r[..|a|] == a;
      assert r[|r| - |b|..] == b;
    }
  }

  /** `.replace('\\', '/')`. */
  function ToSlashes(s: string): (r: string)
    ensures |r| == |s|
    ensures '\\' !in r
    ensures forall i :: 0 <= i < |s| && s[i] != '\\' ==> r[i] == s[i]
  {
    Text.ReplaceChar(s, '\\', '/')
  }

  /** Converting a backslash-joined path whose head has no backslash gives
      the head, a slash, and the converted tail. */
  lemma ToSlashesJoin(a: string, b: string)
    requires '\\' !in a
    ensures ToSlashes(a + "\\" + b) == a + "/" + ToSlashes(b)
  {
    var l := ToSlashes(a + "\\" + b);
    var r := a + "/" + ToSlashes(b);
    assert |l| == |r|;
    forall k | 0 <= k < |l| ensures l[k] == r[k] {
      if k < |a| {
        assert (a + "\\" + b)[k] == a[k];
      } else if k > |a| {
        assert (a + "\\" + b)[k] == b[k - |a| - 1];
      }
    }
  }

  /** Length of the prefix of `p` that ends with its last separator
      (0 when `p` has none). */
  function HeadLength(p: string): (n: nat)
    ensures n <= |p|
    ensures n > 0 ==> IsSep(p[n - 1])
    ensures forall i :: n <= i < |p| ==> !IsSep(p[i])
    decreases |p|
  {
    if |p| == 0 then 0
    else if IsSep(p[|p| - 1]) then |p|
    else HeadLength(p[..|p| - 1])
  }

  /** Drops trailing separators. */
  function TrimSeps(s: string): (r: string)
    ensures |r| <= |s| && r == s[..|r|]
    ensures |r| > 0 ==> !IsSep(r[|r| - 1])
    ensures forall i :: |r| <= i < |s| ==> IsSep(s[i])
    decreases |s|
  {
    if |s| > 0 && IsSep(s[|s| - 1]) then
      var r := TrimSeps(s[..|s| - 1]);
      assert s[..|s| - 1][..|r|] == s[..|r|];
      r
    else s
  }

  /** `os.path.dirname(p)`: everything before the last component, without
      trailing separators unless it consists only of separators. */
  function Dirname(p: string): (r: string)
    ensures |r| <= |p| && r == p[..|r|]
    ensures (forall i :: 0 <= i < |p| ==> !IsSep(p[i])) ==> r == ""
  {
    var head := p[..HeadLength(p)];
    var trimmed := TrimSeps(head);
    if trimmed == "" then head else trimmed
  }

  /** The parent of `dir + "/" + name`, for a bare name, is `dir` itself when
      `dir` does not end with a separator. */
  lemma DirnameOfChild(dir: string, name: string)
    requires |dir| > 0 && !IsSep(dir[|dir| - 1])
    requires forall i :: 0 <= i < |name| ==> !IsSep(name[i])
    ensures Dirname(dir + "/" + name) == dir
  {
    var p := dir + "/" + name;
    var n := HeadLength(p);
    assert IsSep(p[|dir|]);
    assert n == |dir| + 1;
    assert p[..n] == dir + "/";
    assert TrimSeps(dir + "/") == TrimSeps(dir) by {
      assert (dir + "/")[..|dir|] == dir;
    }
  }
}
