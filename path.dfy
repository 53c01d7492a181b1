/** The browser stand-in for the Node.js `path` module: purely textual,
    always '/'-separated path manipulation. */
module PathPolyfill {
  import opened Strings

  /** No two adjacent '/' characters. */
  predicate NoDoubleSlash(s: string) {
    forall i :: 0 <= i < |s| - 1 ==> !(s[i] == '/' && s[i + 1] == '/')
  }

  /** Neither a run of '/' nor a trailing '/', except for the root itself. */
  predicate Clean(s: string) {
    s != "" && NoDoubleSlash(s) && (s == "/" || s[|s| - 1] != '/')
  }

  /** `s.replace(/\/+/g, '/')`: every run of '/' becomes a single '/'. */
  function CollapseSlashes(s: string): (r: string)
    ensures NoDoubleSlash(r)
    ensures |r| <= |s|
    ensures s != [] ==> r != [] && r[0] == s[0]
    ensures s != [] ==> r[|r| - 1] == s[|s| - 1]
    ensures s == [] ==> r == []
    decreases |s|
  {
    if |s| <= 1 then s
    else if s[0] == '/' && s[1] == '/' then CollapseSlashes(s[1..])
    else [s[0]] + CollapseSlashes(s[1..])
  }

  /** Collapsing leaves a string without runs of '/' unchanged. */
  lemma {:induction false} CollapseIdentity(s: string)
    requires NoDoubleSlash(s)
    ensures CollapseSlashes(s) == s
    decreases |s|
  {
    if |s| > 1 {
      assert NoDoubleSlash(s[1..]) by {
        forall i | 0 <= i < |s[1..]| - 1 ensures !(s[1..][i] == '/' && s[1..][i + 1] == '/') {
          assert s[1..][i] == s[i + 1] && s[1..][i + 1] == s[i + 2];
        }
      }
      CollapseIdentity(s[1..]);
      assert [s[0]] + s[1..] == s;
    }
  }

  /** `s.replace(/\/$/, '')`: at most one trailing '/' removed. */
  function StripTrailingSlash(s: string): string {
    if s != [] && s[|s| - 1] == '/' then s[..|s| - 1] else s
  }

  /** JavaScript's `s || '/'` on a string. */
  function OrRoot(s: string): string {
    if s == "" then "/" else s
  }

  /** Stripping one trailing '/' from a string with no runs of '/' leaves a clean path. */
  lemma StripCollapsedIsClean(t: string)
    requires NoDoubleSlash(t)
    ensures Clean(OrRoot(StripTrailingSlash(t)))
  {
    var u := StripTrailingSlash(t);
    if t != [] && t[|t| - 1] == '/' && |t| >= 2 {
      assert t[|t| - 2] != '/';
      assert u[|u| - 1] == t[|t| - 2];
    }
  }

  /** `normalize(path)`. */
  function Normalize(path: string): (r: string)
    ensures Clean(r)
  {
    StripCollapsedIsClean(CollapseSlashes(path));
    OrRoot(StripTrailingSlash(CollapseSlashes(path)))
  }

  /** Normalizing twice is normalizing once. */
  lemma NormalizeIdempotent(path: string)
    ensures Normalize(Normalize(path)) == Normalize(path)
  {
    var r := Normalize(path);
    CollapseIdentity(r);
  }

  /** A clean path is its own normal form. */
  lemma NormalizeClean(path: string)
    requires Clean(path)
    ensures Normalize(path) == path
  {
    CollapseIdentity(path);
  }

  /** `join(...args)`: the non-empty arguments joined by '/', then normalized
      by the same two replacements and the same root fallback. */
  function Join(args: seq<string>): (r: string)
    ensures Clean(r)
    ensures r == Normalize(JoinWith(NonEmpty(args), "/"))
  {
    var joined := JoinWith(NonEmpty(args), "/");
    StripCollapsedIsClean(CollapseSlashes(joined));
    OrRoot(StripTrailingSlash(CollapseSlashes(joined)))
  }

  lemma {:induction false} NonEmptyConcat(a: seq<string>, b: seq<string>)
    ensures NonEmpty(a + b) == NonEmpty(a) + NonEmpty(b)
    decreases |a|
  {
    if a != [] {
      assert (a + b)[0] == a[0];
      assert (a + b)[1..] == a[1..] + b;
      NonEmptyConcat(a[1..], b);
      if a[0] != "" {
        assert NonEmpty(a + b) == [a[0]] + NonEmpty(a[1..] + b);
        assert NonEmpty(a) == [a[0]] + NonEmpty(a[1..]);
      } else {
        assert NonEmpty(a + b) == NonEmpty(a[1..] + b);
        assert NonEmpty(a) == NonEmpty(a[1..]);
      }
    } else {
      assert a + b == b;
    }
  }

  /** Empty arguments anywhere in the list do not change the result. */
  lemma JoinIgnoresEmpty(a: seq<string>, b: seq<string>)
    ensures Join(a + [""] + b) == Join(a + b)
  {
    NonEmptyConcat(a + [""], b);
    NonEmptyConcat(a, [""]);
    NonEmptyConcat(a, b);
    assert NonEmpty([""]) == [];
    assert NonEmpty(a + [""]) == NonEmpty(a);
  }

  /** A path segment: non-empty and without '/'. */
  predicate Segment(s: string) {
    s != "" && '/' !in s
  }

  lemma {:induction false} NonEmptyOfSegments(segs: seq<string>)
    requires forall i :: 0 <= i < |segs| ==> Segment(segs[i])
    ensures NonEmpty(segs) == segs
    decreases |segs|
  {
    if segs != [] {
      NonEmptyOfSegments(segs[1..]);
      assert [segs[0]] + segs[1..] == segs;
    }
  }

  /** Segments joined by '/' start and end with a segment character and
      hold no run of '/'. */
  lemma {:induction false} JoinedSegmentsShape(segs: seq<string>)
    requires |segs| >= 1
    requires forall i :: 0 <= i < |segs| ==> Segment(segs[i])
    ensures var j := JoinWith(segs, "/");
      |j| >= 1 && j[0] != '/' && j[|j| - 1] != '/' && NoDoubleSlash(j)
    decreases |segs|
  {
    var j := JoinWith(segs, "/");
    assert Segment(segs[0]);
    assert segs[0][0] in segs[0];
    if |segs| == 1 {
      assert segs[0][|segs[0]| - 1] in segs[0];
    } else {
      JoinedSegmentsShape(segs[1..]);
      var head, tail := segs[0], JoinWith(segs[1..], "/");
      assert j == head + "/" + tail;
      assert head[|head| - 1] in head;
      forall i | 0 <= i < |j| - 1 ensures !(j[i] == '/' && j[i + 1] == '/') {
        if i < |head| - 1 {
          assert j[i] == head[i];
          assert head[i] in head;
        } else if i == |head| - 1 {
          assert j[i] == head[i];
        } else if i == |head| {
          assert j[i + 1] == tail[0];
        } else {
          assert j[i] == tail[i - |head| - 1] && j[i + 1] == tail[i - |head|];
        }
      }
    }
  }

  /** Joining proper segments is plain concatenation with '/' between them. */
  lemma JoinSegments(segs: seq<string>)
    requires |segs| >= 1
    requires forall i :: 0 <= i < |segs| ==> Segment(segs[i])
    ensures Join(segs) == JoinWith(segs, "/")
  {
    NonEmptyOfSegments(segs);
    JoinedSegmentsShape(segs);
    CollapseIdentity(JoinWith(segs, "/"));
  }

  /** `resolve(...args)`: like join without the trailing-slash step, and
      made absolute by a leading '/' when it lacks one. */
  function Resolve(args: seq<string>): (r: string)
    ensures StartsWith(r, "/")
    ensures NoDoubleSlash(r)
  {
    var resolved := CollapseSlashes(JoinWith(NonEmpty(args), "/"));
    if StartsWith(resolved, "/") then resolved
    else
      var r := "/" + resolved;
      assert forall i :: 1 <= i < |r| ==> r[i] == resolved[i - 1];
      r
  }

  /** `dirname(path)`: everything before the last '/', or '/' when that is empty. */
  function Dirname(path: string): (r: string)
    ensures var k := LastIndexOf(path, '/');
      r == if k > 0 then path[..k] else "/"
  {
    var parts := Split(path, '/');
    var r := OrRoot(JoinWith(parts[..|parts| - 1], "/"));
    if '/' in path then SplitInitPieces(path, '/'); r
    else SplitWithoutSep(path, '/'); r
  }

  /** `path.split('/').pop()`: the text after the last '/'. */
  function LastSegment(path: string): (r: string)
    ensures r == path[LastIndexOf(path, '/') + 1..]
    ensures '/' !in r && EndsWith(path, r)
  {
    SplitLastPiece(path, '/');
    var r := Last(Split(path, '/'));
    assert path[|path| - |r|..] == r;
    r
  }

  /** `basename(path, ext)`: the last '/'-segment, minus `ext` when it ends with it. */
  function Basename(path: string, ext: string): (r: string)
    ensures var name := LastSegment(path);
      if ext != "" && EndsWith(name, ext) then r + ext == name else r == name
  {
    var name := LastSegment(path);
    if ext != "" && EndsWith(name, ext) then
      assert name[..|name| - |ext|] + name[|name| - |ext|..] == name;
      name[..|name| - |ext|]
    else name
  }

  /** `extname(path)`: the last segment from its last '.', when that dot is not
      the segment's first character. */
  function Extname(path: string): (r: string)
    ensures EndsWith(LastSegment(path), r)
    ensures r != "" ==> r[0] == '.' && '.' !in r[1..] && |r| < |LastSegment(path)|
    ensures r == "" <==> LastIndexOf(LastSegment(path), '.') <= 0
  {
    var base := LastSegment(path);
    var lastDot := LastIndexOf(base, '.');
    if lastDot > 0 then
      var r := base[lastDot..];
      assert r[1..] == base[lastDot + 1..];
      assert base[|base| - |r|..] == r;
      r
    else ""
  }

  /** A path ending in '/' has an empty last segment, so no extension. */
  lemma ExtnameOfDirectory(path: string)
    requires path != [] && path[|path| - 1] == '/'
    ensures Extname(path) == ""
  {
    assert LastSegment(path) == [];
  }

  /** The polyfill gives the segment '..' the extension '.'. */
  lemma ExtnameOfDotDot(path: string)
    requires LastSegment(path) == ".."
    ensures Extname(path) == "."
  {
    assert LastIndexOf("..", '.') == 1;
  }

  /** The extension of `dir/stem.ext`, for a non-empty stem, is `.ext`. */
  lemma ExtnameOfFile(dir: string, stem: string, ext: string)
    requires stem != "" && '/' !in stem
    requires |ext| >= 1 && ext[0] == '.' && '.' !in ext[1..] && '/' !in ext
    ensures Extname(dir + "/" + stem + ext) == ext
  {
    var name := stem + ext;
    NoSlashInConcat(stem, ext);
    assert dir + "/" + stem + ext == dir + "/" + name;
    SlashBeforeBase(dir, name);
    ExtnameOfName(stem, ext);
  }

  lemma NoSlashInConcat(a: string, b: string)
    requires '/' !in a && '/' !in b
    ensures '/' !in a + b
  {
    assert forall i :: 0 <= i < |a + b| ==> (a + b)[i] == (if i < |a| then a[i] else b[i - |a|]);
  }

  /** Within one segment, `stem.ext` has its last '.' right after the stem. */
  lemma ExtnameOfName(stem: string, ext: string)
    requires stem != ""
    requires |ext| >= 1 && ext[0] == '.' && '.' !in ext[1..]
    ensures LastIndexOf(stem + ext, '.') == |stem|
    ensures (stem + ext)[|stem|..] == ext
  {
    assert stem + ext == stem + ['.'] + ext[1..];
    LastIndexOfAppend(stem, '.', ext[1..]);
  }

  /** A hidden file, whose only '.' leads its name, has no extension. */
  lemma ExtnameOfHiddenFile(dir: string, name: string)
    requires '/' !in name && '.' !in name
    ensures Extname(dir + "/." + name) == ""
  {
    var base := "." + name;
    assert '/' !in base;
    assert dir + "/." + name == dir + "/" + base;
    SlashBeforeBase(dir, base);
    assert LastSegment(dir + "/" + base) == base;
    assert base == "" + ['.'] + name;
    LastIndexOfAppend("", '.', name);
  }

  datatype ParsedPath = ParsedPath(root: string, dir: string, base: string, ext: string, name: string)

  /** `parse(path)`: the name and the extension make up the last segment,
      and the root says whether the path is absolute. */
  function Parse(path: string): (p: ParsedPath)
    ensures p.name + p.ext == p.base && '/' !in p.base && EndsWith(path, p.base)
    ensures p.root == "/" <==> IsAbsolute(path)
    ensures p.root == "" <==> !IsAbsolute(path)
    ensures p.base == Basename(path, "") && p.dir == Dirname(path) && p.ext == Extname(path)
  {
    var base := Basename(path, "");
    var ext := Extname(path);
    var name := Basename(path, ext);
    assert base == LastSegment(path);
    ParsedPath(if StartsWith(path, "/") then "/" else "", Dirname(path), base, ext, name)
  }

  /** `format(pathObject)`; empty strings play JavaScript's falsy role. */
  function Format(p: ParsedPath): (r: string)
    ensures EndsWith(r, p.base)
    ensures p.root != "" ==> StartsWith(r, p.root)
    ensures p.root == "" && p.dir == "" ==> r == p.base
  {
    if p.root != "" then
      p.root + (if p.dir != "" then p.dir[1..] else "") + (if p.base != "" then "/" + p.base else "")
    else
      (if p.dir != "" then p.dir + "/" else "") + p.base
  }

  /** Where the last '/' of `dir + "/" + base` is, and what lies on each side. */
  lemma SlashBeforeBase(dir: string, base: string)
    requires '/' !in base
    ensures var path := dir + "/" + base;
      LastIndexOf(path, '/') == |dir| && path[|dir| + 1..] == base && path[..|dir|] == dir
  {
    var path := dir + "/" + base;
    assert path == dir + ['/'] + base;
    LastIndexOfAppend(dir, '/', base);
  }

  /** The parts of a path with a non-empty directory before its last '/'. */
  lemma ParseAppend(dir: string, base: string)
    requires dir != "" && '/' !in base
    ensures var p := Parse(dir + "/" + base);
      p.dir == dir && p.base == base && (p.root != "" <==> dir[0] == '/') && p.root in {"", "/"}
  {
    var path := dir + "/" + base;
    SlashBeforeBase(dir, base);
    assert LastSegment(path) == base;
    assert Dirname(path) == dir;
    assert path[0] == dir[0];
    assert StartsWith(path, "/") <==> dir[0] == '/' by {
      assert path[..1] == [path[0]];
    }
  }

  /** Formatting a parsed path gives it back when it has a non-empty
      directory part before its last '/' and a non-empty last segment. */
  lemma FormatParseRoundTrip(dir: string, base: string)
    requires dir != "" && Segment(base)
    ensures Format(Parse(dir + "/" + base)) == dir + "/" + base
  {
    ParseAppend(dir, base);
    FormatDirAndBase(Parse(dir + "/" + base));
  }

  lemma FormatDirAndBase(p: ParsedPath)
    requires p.dir != "" && p.base != "" && p.root in {"", "/"}
    requires p.root != "" <==> p.dir[0] == '/'
    ensures Format(p) == p.dir + "/" + p.base
  {
    if p.root != "" {
      assert "/" + p.dir[1..] == p.dir;
    }
  }

  /** A file name at the root parses with '/' as its directory. */
  lemma ParseRootFile(base: string)
    requires Segment(base)
    ensures var p := Parse("/" + base);
      p.root == "/" && p.dir == "/" && p.base == base
  {
    var path := "/" + base;
    assert path == "" + "/" + base;
    SlashBeforeBase("", base);
    assert LastSegment(path) == base;
    assert StartsWith(path, "/");
  }

  /** A bare file name parses with '/' as its directory too. */
  lemma ParseBareFile(base: string)
    requires Segment(base)
    ensures var p := Parse(base);
      p.root == "" && p.dir == "/" && p.base == base
  {
    assert LastIndexOf(base, '/') == -1;
    assert base[0..] == base;
    assert !StartsWith(base, "/") by {
      assert base[..1] == [base[0]];
    }
  }

  /** A root-level or bare file name does not survive the round trip: the
      directory part is '/', which the formatter joins with another '/'. */
  lemma FormatParseRootLevel(base: string)
    requires Segment(base)
    ensures Format(Parse("/" + base)) == "//" + base
    ensures Format(Parse(base)) == "//" + base
  {
    ParseRootFile(base);
    ParseBareFile(base);
    FormatRootDir(Parse("/" + base));
    FormatRootDir(Parse(base));
  }

  lemma FormatRootDir(p: ParsedPath)
    requires p.dir == "/" && p.base != "" && p.root in {"", "/"}
    ensures Format(p) == "//" + p.base
  {
    if p.root != "" {
      assert p.dir[1..] == "";
      assert p.root + "" + ("/" + p.base) == "//" + p.base;
    } else {
      assert p.dir + "/" + p.base == "//" + p.base;
    }
  }

  /** `isAbsolute(path)`. */
  predicate IsAbsolute(path: string) {
    StartsWith(path, "/")
  }

  /** The number of leading elements two lists share. */
  function CommonPrefixLength(a: seq<string>, b: seq<string>): (n: nat)
    ensures n <= |a| && n <= |b| && a[..n] == b[..n]
    ensures n < |a| && n < |b| ==> a[n] != b[n]
    decreases |a|
  {
    if a == [] || b == [] || a[0] != b[0] then 0
    else
      var n := 1 + CommonPrefixLength(a[1..], b[1..]);
      assert a[..n] == [a[0]] + a[1..][..n - 1];
      assert b[..n] == [b[0]] + b[1..][..n - 1];
      n
  }

  /** Any index up to which two lists agree and after which they differ is
      their common prefix length. */
  lemma {:induction false} CommonPrefixUnique(a: seq<string>, b: seq<string>, i: nat)
    requires i <= |a| && i <= |b| && a[..i] == b[..i]
    requires i == |a| || i == |b| || a[i] != b[i]
    ensures i == CommonPrefixLength(a, b)
    decreases i
  {
    if i > 0 {
      assert a[0] == a[..i][0] && b[0] == b[..i][0];
      assert a[1..][..i - 1] == a[..i][1..] && b[1..][..i - 1] == b[..i][1..];
      assert i - 1 < |a| - 1 && i - 1 < |b| - 1 ==> a[1..][i - 1] == a[i] && b[1..][i - 1] == b[i];
      CommonPrefixUnique(a[1..], b[1..], i - 1);
    }
  }

  /** The value of `relative(from, to)`: one '../' per segment of `from`
      past the shared prefix, then the rest of `to`. */
  function RelativePath(from: string, to: string): string {
    var fromParts := NonEmpty(Split(from, '/'));
    var toParts := NonEmpty(Split(to, '/'));
    var i := CommonPrefixLength(fromParts, toParts);
    Repeat("../", |fromParts| - i) + JoinWith(toParts[i..], "/")
  }

  /** `relative(from, to)`, with the source's counting loop. */
  method Relative(from: string, to: string) returns (r: string)
    ensures r == RelativePath(from, to)
  {
    var fromParts := NonEmpty(Split(from, '/'));
    var toParts := NonEmpty(Split(to, '/'));
    var i := 0;
    while i < |fromParts| && i < |toParts| && fromParts[i] == toParts[i]
      invariant i <= |fromParts| && i <= |toParts|
      invariant fromParts[..i] == toParts[..i]
    {
      assert fromParts[..i + 1] == fromParts[..i] + [fromParts[i]];
      assert toParts[..i + 1] == toParts[..i] + [toParts[i]];
      i := i + 1;
    }
    CommonPrefixUnique(fromParts, toParts, i);
    var up := |fromParts| - i;
    var down := toParts[i..];
    r := Repeat("../", up) + JoinWith(down, "/");
  }

  /** A path is related to itself by the empty path. */
  lemma RelativeSelf(p: string)
    ensures RelativePath(p, p) == ""
  {
    var parts := NonEmpty(Split(p, '/'));
    CommonPrefixUnique(parts, parts, |parts|);
  }

  /** Appending one segment splits off one more non-empty piece. */
  lemma SplitAppendSegment(p: string, seg: string)
    requires Segment(seg)
    ensures NonEmpty(Split(p + "/" + seg, '/')) == NonEmpty(Split(p, '/')) + [seg]
  {
    assert p + "/" + seg == p + ['/'] + seg;
    SplitConcat(p, '/', seg);
    SplitWithoutSep(seg, '/');
    NonEmptyConcat(Split(p, '/'), [seg]);
    assert NonEmpty([seg]) == [seg];
  }

  /** From a directory to a child entry is that entry's name. */
  lemma RelativeToChild(p: string, seg: string)
    requires Segment(seg)
    ensures RelativePath(p, p + "/" + seg) == seg
  {
    SplitAppendSegment(p, seg);
    var a := NonEmpty(Split(p, '/'));
    var b := a + [seg];
    assert b[..|a|] == a;
    CommonPrefixUnique(a, b, |a|);
    assert b[|a|..] == [seg];
  }

  /** From a child entry to its directory is one step up. */
  lemma RelativeToParent(p: string, seg: string)
    requires Segment(seg)
    ensures RelativePath(p + "/" + seg, p) == "../"
  {
    SplitAppendSegment(p, seg);
    var a := NonEmpty(Split(p, '/'));
    var b := a + [seg];
    assert b[..|a|] == a;
    CommonPrefixUnique(b, a, |a|);
    assert a[|a|..] == [];
  }
}
