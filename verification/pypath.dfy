/**
  The POSIX `os.path` functions the add-ons call: `basename`, `dirname`,
  `splitext(p)[0]` and two-argument `join`, with `/` as the only separator.
 */
module PyPath {
  import opened PyStr

  /** `s.rfind(c)`: the index of the last `c`, or -1 when there is none. */
  function RFind(s: string, c: char): (r: int)
    ensures -1 <= r < |s|
    ensures r >= 0 ==> s[r] == c
    ensures forall k :: r < k < |s| ==> s[k] != c
    decreases |s|
  {
    if |s| == 0 then -1
    else if s[|s| - 1] == c then |s| - 1
    else RFind(s[..|s| - 1], c)
  }

  /** `s.rstrip(c)`: drop every trailing `c`. */
  function RStrip(s: string, c: char): (r: string)
    ensures StartsWith(s, r)
    ensures |r| == 0 || r[|r| - 1] != c
    ensures forall k :: |r| <= k < |s| ==> s[k] == c
    decreases |s|
  {
    if |s| > 0 && s[|s| - 1] == c then RStrip(s[..|s| - 1], c) else s
  }

  predicate AllSlashes(s: string) {
    forall k :: 0 <= k < |s| ==> s[k] == '/'
  }

  /** `os.path.basename(p)`: the text after the last `/`. */
  function Basename(p: string): (r: string)
    ensures '/' !in r
    ensures EndsWith(p, r)
    ensures |r| < |p| ==> p[|p| - |r| - 1] == '/'
  {
    var i := RFind(p, '/') + 1;
    assert forall k :: 0 <= k < |p[i..]| ==> p[i..][k] == p[i + k];
    p[i..]
  }

  /** `os.path.dirname(p)`: the text up to the last `/`, with trailing slashes
      removed unless it consists of slashes only. */
  function Dirname(p: string): (r: string)
    ensures StartsWith(p, r)
    ensures r == [] <==> '/' !in p
  {
    var i := RFind(p, '/') + 1;
    var head := p[..i];
    if head != [] && !AllSlashes(head) then
      var r := RStrip(head, '/');
      var k :| 0 <= k < |head| && head[k] != '/';
      assert |r| > k;
      r
    else
      assert head != [] ==> p[i - 1] == '/';
      head
  }

  /** `os.path.splitext(p)[0]`: `p` without its extension. The extension starts at
      the last `.` of the last path component, provided some character before
      that dot in the component is not itself a dot. */
  function StripExt(p: string): (r: string)
    ensures StartsWith(p, r)
    ensures r == p || (p[|r|] == '.' && '.' !in p[|r| + 1..] && '/' !in p[|r| + 1..])
  {
    var sepIndex := RFind(p, '/');
    var dotIndex := RFind(p, '.');
    if dotIndex > sepIndex && exists k | sepIndex < k < dotIndex :: p[k] != '.' then
      var tail := p[dotIndex + 1..];
      assert forall k :: 0 <= k < |tail| ==> tail[k] == p[dotIndex + 1 + k];
      p[..dotIndex]
    else p
  }

  /** What `join` puts in front of a relative second part: the first part, with a
      `/` added unless it is empty or already ends in one. */
  function DirPrefix(a: string): (r: string)
    ensures StartsWith(r, a)
    ensures r == [] || r[|r| - 1] == '/'
  {
    if a == [] || a[|a| - 1] == '/' then a else a + "/"
  }

  /** `os.path.join(a, b)` on POSIX: an absolute second part replaces the first. */
  function Join(a: string, b: string): (r: string)
    ensures |b| > 0 && b[0] == '/' ==> r == b
    ensures !(|b| > 0 && b[0] == '/') ==> r == DirPrefix(a) + b
  {
    if |b| > 0 && b[0] == '/' then b
    else if a == [] || a[|a| - 1] == '/' then a + b
    else a + "/" + b
  }

  /** The project name the add-ons derive from a file path:
      `os.path.splitext(os.path.basename(path))[0]`. */
  function ProjectName(path: string): string {
    StripExt(Basename(path))
  }

  /** Text without `c` appended to a string does not move its last `c`. */
  lemma {:induction false} RFindAppend(x: string, y: string, c: char)
    requires c !in y
    ensures RFind(x + y, c) == RFind(x, c)
    decreases |y|
  {
    if |y| == 0 {
      assert x + y == x;
    } else {
      var p := x + y;
      assert y[|y| - 1] in y;
      assert p[..|p| - 1] == x + y[..|y| - 1];
      assert c !in y[..|y| - 1];
      RFindAppend(x, y[..|y| - 1], c);
    }
  }

  /** A relative name without `/` joined onto a directory is its base name again. */
  lemma BasenameOfJoin(a: string, b: string)
    requires '/' !in b
    ensures Basename(Join(a, b)) == b
  {
    if |b| > 0 {
      assert b[0] in b;
    }
    var pre := if a == [] || a[|a| - 1] == '/' then a else a + "/";
    assert Join(a, b) == pre + b;
    RFindAppend(pre, b, '/');
    if pre != [] {
      assert pre[|pre| - 1] == '/';
      assert RFind(pre, '/') == |pre| - 1;
    }
    assert (pre + b)[|pre|..] == b;
  }

  /** A relative name without `/` joined onto a directory that does not end in `/`
      has that directory as its directory part again. */
  lemma DirnameOfJoin(a: string, b: string)
    requires |a| > 0 && a[|a| - 1] != '/'
    requires '/' !in b
    ensures Dirname(Join(a, b)) == a
  {
    var pre := a + "/";
    var p := pre + b;
    if |b| > 0 {
      assert b[0] in b;
    }
    assert Join(a, b) == p;
    RFindAppend(pre, b, '/');
    assert RFind(pre, '/') == |a|;
    assert p[..|a| + 1] == pre;
    DirnameAt(p, a);
  }

  /** A path whose last `/` follows a directory not ending in `/` has that directory
      as its directory part. */
  lemma DirnameAt(p: string, a: string)
    requires |a| > 0 && a[|a| - 1] != '/'
    requires RFind(p, '/') == |a| && p[..|a| + 1] == a + "/"
    ensures Dirname(p) == a
  {
    var head := a + "/";
    assert head[|a| - 1] != '/';
    assert !AllSlashes(head);
    StripOneSlash(a);
  }

  /** Stripping the slash behind a directory that does not end in `/`. */
  lemma StripOneSlash(a: string)
    requires |a| > 0 && a[|a| - 1] != '/'
    ensures RStrip(a + "/", '/') == a
  {
    assert (a + "/")[..|a|] == a;
  }

  /** Appending `.blend` to a name whose last component holds some character other
      than a dot makes `.blend` the extension, so stripping it gives the name back. */
  lemma StripBlend(x: string)
    requires exists k | RFind(x, '/') < k < |x| :: x[k] != '.'
    ensures StripExt(x + ".blend") == x
  {
    var k :| RFind(x, '/') < k < |x| && x[k] != '.';
    BlendDots(x);
    StripAtDot(x + ".blend", x, k);
  }

  /** In `x + ".blend"` the last dot is the one just added and the last `/` is `x`'s. */
  lemma BlendDots(x: string)
    ensures StartsWith(x + ".blend", x)
    ensures RFind(x + ".blend", '.') == |x|
    ensures RFind(x + ".blend", '/') == RFind(x, '/')
  {
    assert (x + ".blend")[..|x|] == x;
    BlendLastDot(x);
    BlendLastSlash(x);
  }

  lemma BlendLastDot(x: string)
    ensures RFind(x + ".blend", '.') == |x|
  {
    var y := x + ".";
    BlendParts(x);
    assert y[|y| - 1] == '.';
    RFindAppend(y, "blend", '.');
  }

  /** `.blend` is a dot and then `blend`, neither of which holds a slash. */
  lemma BlendParts(x: string)
    ensures x + "." + "blend" == x + ".blend"
    ensures '/' !in "blend" && '.' !in "blend" && '/' !in "."
  {
  }

  lemma BlendLastSlash(x: string)
    ensures RFind(x + ".blend", '/') == RFind(x, '/')
  {
    var y := x + ".";
    BlendParts(x);
    RFindAppend(y, "blend", '/');
    RFindAppend(x, ".", '/');
  }

  /** The extension starts at the last dot when a non-dot precedes it in the component. */
  lemma StripAtDot(p: string, x: string, k: int)
    requires StartsWith(p, x)
    requires RFind(p, '.') == |x|
    requires RFind(p, '/') < k < |x| && p[k] != '.'
    ensures StripExt(p) == x
  {
  }

  /** Saving `name + ".blend"` into a directory and reading the project name of
      that path back gives `name`. */
  lemma ProjectNameOfSave(dir: string, name: string)
    requires '/' !in name
    requires exists k | 0 <= k < |name| :: name[k] != '.'
    ensures ProjectName(Join(dir, name + ".blend")) == name
  {
    var f := name + ".blend";
    assert '/' !in f by {
      assert forall j :: |name| <= j < |f| ==> f[j] != '/';
      assert forall j :: 0 <= j < |name| ==> f[j] == name[j];
    }
    BasenameOfJoin(dir, f);
    assert RFind(name, '/') == -1;
    StripBlend(name);
  }

  /** A character absent from a path is absent from its directory and project name. */
  lemma PartsAvoid(p: string, c: char)
    requires c !in p
    ensures c !in Dirname(p) && c !in Basename(p) && c !in ProjectName(p)
  {
    PrefixAvoids(p, Dirname(p), c);
    SuffixAvoids(p, Basename(p), c);
    PrefixAvoids(Basename(p), ProjectName(p), c);
  }

  lemma PrefixAvoids(s: string, r: string, c: char)
    requires StartsWith(s, r) && c !in s
    ensures c !in r
  {
    assert forall i :: 0 <= i < |r| ==> r[i] == s[i];
  }

  lemma SuffixAvoids(s: string, r: string, c: char)
    requires EndsWith(s, r) && c !in s
    ensures c !in r
  {
    assert forall i :: 0 <= i < |r| ==> r[i] == s[|s| - |r| + i];
  }

  /** The project name is a single path component: it holds no `/`. */
  lemma ProjectNameRelative(p: string)
    ensures '/' !in ProjectName(p)
  {
    PrefixAvoids(Basename(p), ProjectName(p), '/');
  }

  /** A character other than `/` absent from both parts is absent from their join. */
  lemma JoinAvoids(a: string, b: string, c: char)
    requires c !in a && c !in b && c != '/'
    ensures c !in Join(a, b)
  {
  }
}
