/** The `os.path` functions the modelled code calls, with the semantics of
    Python's `posixpath` module (separator `/`, extension separator `.`). */
module PosixPath {

  /** Index of the last `c` in `s`, or -1 (`str.rfind`). */
  function RFind(s: string, c: char): (r: int)
    ensures -1 <= r < |s|
    ensures r >= 0 ==> s[r] == c
    ensures forall k :: r < k < |s| ==> s[k] != c
  {
    if s == [] then -1
    else if s[|s| - 1] == c then |s| - 1
    else RFind(s[..|s| - 1], c)
  }

  /** `os.path.join(a, b)`: an absolute `b` replaces `a`; otherwise `b` is
      appended to `a`, with a `/` in between unless `a` is empty or already
      ends with one. */
  function Join(a: string, b: string): string {
    if |b| > 0 && b[0] == '/' then b
    else if a == [] || a[|a| - 1] == '/' then a + b
    else a + "/" + b
  }

  /** `os.path.basename(p)`: everything after the last `/`. */
  function Basename(p: string): (r: string)
    ensures '/' !in r
    ensures |r| <= |p| && r == p[|p| - |r|..]
  {
    p[RFind(p, '/') + 1..]
  }

  /** Characters after the last `c` that are not `c` do not move it. */
  lemma {:induction false} RFindSkips(h: string, b: string, c: char)
    requires c !in b
    ensures RFind(h + b, c) == RFind(h, c)
    decreases |b|
  {
    if b == [] {
      assert h + b == h;
    } else {
      var hb := h + b;
      assert hb[|hb| - 1] == b[|b| - 1];
      assert hb[..|hb| - 1] == h + b[..|b| - 1];
      RFindSkips(h, b[..|b| - 1], c);
    }
  }

  /** The base name of a path built by joining a relative name that holds no
      separator is that name. */
  lemma BasenameOfJoin(a: string, b: string)
    requires b != [] && '/' !in b
    ensures Basename(Join(a, b)) == b
  {
    var head := if a == [] || a[|a| - 1] == '/' then a else a + "/";
    assert Join(a, b) == head + b;
    RFindSkips(head, b, '/');
    assert RFind(head, '/') == |head| - 1;
    assert (head + b)[|head|..] == b;
  }

  /** `os.path.splitext(p)`: the extension runs from the last `.` after the
      last `/`, provided some character other than `.` precedes that dot
      within the last component; otherwise there is no extension. */
  function SplitExt(p: string): (r: (string, string))
    ensures r.0 + r.1 == p
    ensures r.1 == [] || (r.1[0] == '.' && '.' !in r.1[1..] && '/' !in r.1)
    ensures r.1 != [] <==> exists d, k :: RFind(p, '/') < k < d < |p| && p[d] == '.' && p[k] != '.'
  {
    var sepIndex := RFind(p, '/');
    var dotIndex := RFind(p, '.');
    if dotIndex > sepIndex && exists k :: sepIndex + 1 <= k < dotIndex && p[k] != '.' then
      var r := (p[..dotIndex], p[dotIndex..]);
      assert forall k :: 0 <= k < |r.1| ==> r.1[k] == p[dotIndex + k];
      assert p == r.0 + r.1;
      r
    else (p, [])
  }

  /** A name without separator has an extension exactly when it holds a `.`
      with some other character than `.` before it. */
  lemma SplitExtOfName(name: string)
    requires '/' !in name
    ensures SplitExt(name).1 != [] <==>
      exists d, k :: 0 <= k < d < |name| && name[d] == '.' && name[k] != '.'
  {
    assert RFind(name, '/') == -1;
  }

  /** A non-empty extension is a `.` followed by the rest of it, and it ends
      the path. */
  lemma SplitExtSuffix(p: string)
    ensures var e := SplitExt(p).1;
      e != [] ==>
        && e == "." + e[1..] && |e| <= |p| && p[|p| - |e|..] == e
        && p[|p| - |e|] == '.' && p[|p| - |e| + 1..] == e[1..]
  {
    var (root, e) := SplitExt(p);
    if e != [] {
      assert e == [e[0]] + e[1..];
      assert p[|root|..] == e;
    }
  }
}
