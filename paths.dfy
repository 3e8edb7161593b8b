/** POSIX path arithmetic as `os.path` does it for absolute paths, and the two containment checks
    the file tools use: a raw string prefix test and a segment-wise `commonpath` test. */
module PathGuard {
  import opened Text

  /** A normalised absolute path, as its segments from `/`. */
  type Path = seq<string>

  /** A segment `normpath` can leave behind. */
  predicate ValidSegment(s: string) {
    s != [] && s != "." && s != ".." && '/' !in s
  }

  predicate ValidPath(p: Path) {
    forall i :: 0 <= i < |p| ==> ValidSegment(p[i])
  }

  function Parent(p: Path): Path {
    if p == [] then [] else p[..|p| - 1]
  }

  /** One component of `normpath` on an absolute path: empty and `.` are dropped, `..` pops, and
      stays put at `/`. */
  function Step(st: Path, c: string): Path {
    if c == [] || c == "." then st
    else if c == ".." then Parent(st)
    else st + [c]
  }

  /** The components, read from the left, applied to the segments `st`. */
  function Apply(st: Path, comps: seq<string>): (r: Path)
    ensures ValidPath(st) && (forall k :: 0 <= k < |comps| ==> '/' !in comps[k]) ==> ValidPath(r)
    decreases |comps|
  {
    if comps == [] then st
    else
      var next := Step(st, comps[0]);
      assert ValidPath(st) && '/' !in comps[0] ==> ValidPath(next);
      Apply(next, comps[1..])
  }

  lemma {:induction false} ApplyAppend(st: Path, xs: seq<string>, ys: seq<string>)
    ensures Apply(st, xs + ys) == Apply(Apply(st, xs), ys)
    decreases |xs|
  {
    if xs == [] {
      assert xs + ys == ys;
    } else {
      assert (xs + ys)[1..] == xs[1..] + ys;
      ApplyAppend(Step(st, xs[0]), xs[1..], ys);
    }
  }

  /** Valid segments are pushed as they are. */
  lemma {:induction false} ApplyValid(st: Path, segs: Path)
    requires ValidPath(segs)
    ensures Apply(st, segs) == st + segs
    decreases |segs|
  {
    if segs != [] {
      ApplyValid(st + [segs[0]], segs[1..]);
      assert st + [segs[0]] + segs[1..] == st + segs;
    } else {
      assert st + segs == st;
    }
  }

  /** The `/a/b/c` text of a non-empty segment list. */
  function Slashed(segs: Path): string
    decreases |segs|
  {
    if segs == [] then [] else "/" + segs[0] + Slashed(segs[1..])
  }

  lemma {:induction false} SlashedAppend(segs: Path, s: string)
    ensures Slashed(segs + [s]) == Slashed(segs) + "/" + s
    decreases |segs|
  {
    if segs == [] {
      assert Slashed([s]) == "/" + s + Slashed([]);
    } else {
      assert (segs + [s])[1..] == segs[1..] + [s];
      SlashedAppend(segs[1..], s);
    }
  }

  /** What `normpath` returns: one leading slash, or two when the text began with exactly two. */
  datatype AbsPath = AbsPath(doubleSlash: bool, segs: Path)

  function Render(a: AbsPath): string {
    (if a.doubleSlash then "/" else []) + (if a.segs == [] then "/" else Slashed(a.segs))
  }

  /** `os.path.normpath` of an absolute path. */
  function Collapse(path: string): (r: AbsPath)
    ensures ValidPath(r.segs)
  {
    SplitOnJoins(path, '/');
    AbsPath(StartsWith(path, "//") && !StartsWith(path, "///"), Apply([], SplitOn(path, '/')))
  }

  /** `os.path.join(base, p)`: an absolute `p` replaces the base. */
  function Joined(base: string, p: string): string {
    if StartsWith(p, "/") then p
    else if base == [] || EndsWith(base, "/") then base + p
    else base + "/" + p
  }

  /** `os.path.abspath(os.path.join(base, p))` for the directory `base`. */
  function AbsJoin(base: Path, p: string): AbsPath {
    Collapse(Joined(Render(AbsPath(false, base)), p))
  }

  /** `target.startswith(ROOT)` on the rendered texts. */
  predicate PrefixInside(root: Path, target: AbsPath) {
    StartsWith(Render(target), Render(AbsPath(false, root)))
  }

  /** The longest common leading run of segments. */
  function CommonPrefix(a: Path, b: Path): (r: Path)
    ensures |r| <= |a| && |r| <= |b| && r == a[..|r|] && r == b[..|r|]
    ensures |r| == |a| || |r| == |b| || a[|r|] != b[|r|]
    decreases |a|
  {
    if a == [] || b == [] || a[0] != b[0] then []
    else [a[0]] + CommonPrefix(a[1..], b[1..])
  }

  /** `os.path.commonpath([target, ROOT]) == ROOT`, on the rendered texts. */
  predicate CommonPathInside(root: Path, target: AbsPath) {
    Render(AbsPath(false, CommonPrefix(target.segs, root))) == Render(AbsPath(false, root))
  }

  // ---------------------------------------------------------------------------------------------
  // The rendered text of a path

  lemma SlashedNonEmpty(segs: Path)
    requires segs != [] && ValidPath(segs)
    ensures |Slashed(segs)| >= 2 && Slashed(segs)[0] == '/' && Slashed(segs)[1] == segs[0][0]
    ensures Slashed(segs)[|Slashed(segs)| - 1] != '/'
    decreases |segs|
  {
    if |segs| > 1 {
      SlashedNonEmpty(segs[1..]);
    } else {
      assert Slashed(segs) == "/" + segs[0];
    }
  }

  /** The slash-separated pieces of `seg + /b/c` are `seg, b, c`. */
  lemma {:induction false} SplitSlashed(seg: string, segs: Path)
    requires '/' !in seg && ValidPath(segs)
    ensures SplitOn(seg + Slashed(segs), '/') == [seg] + segs
    decreases |segs|
  {
    if segs == [] {
      assert seg + Slashed(segs) == seg;
    } else {
      var tail := segs[0] + Slashed(segs[1..]);
      assert seg + Slashed(segs) == seg + ['/'] + tail;
      SplitOnAppend(seg, tail, '/');
      SplitSlashed(segs[0], segs[1..]);
      ConsSplit(segs);
    }
  }

  lemma SlashedShape(root: Path, p: string)
    requires root != []
    ensures Slashed(root) + "/" + p == [] + ['/'] + ((root[0] + Slashed(root[1..])) + ['/'] + p)
  {
    var y := root[0] + Slashed(root[1..]);
    assert Slashed(root) == ['/'] + y;
    ConcatEmpty(['/']);
    ConcatAssoc(['/'], y + "/", p);
    ConcatAssoc(['/'], y, "/");
  }

  lemma SplitTail(root: Path, p: string)
    requires root != [] && ValidPath(root)
    ensures SplitOn((root[0] + Slashed(root[1..])) + ['/'] + p, '/') == root + SplitOn(p, '/')
  {
    SplitOnAppend(root[0] + Slashed(root[1..]), p, '/');
    SplitSlashed(root[0], root[1..]);
    ConsSplit(root);
  }

  lemma SplitLeadingSlash(rest: string)
    ensures SplitOn([] + ['/'] + rest, '/') == [[]] + SplitOn(rest, '/')
  {
    SplitOnAppend([], rest, '/');
    assert SplitOn([], '/') == [[]];
  }

  lemma SplitRootJoin(root: Path, p: string)
    requires root != [] && ValidPath(root)
    ensures SplitOn(Slashed(root) + "/" + p, '/') == [[]] + root + SplitOn(p, '/')
  {
    var rest := (root[0] + Slashed(root[1..])) + ['/'] + p;
    assert SplitOn(Slashed(root) + "/" + p, '/') == [[]] + SplitOn(rest, '/') by {
      SlashedShape(root, p);
      SplitLeadingSlash(rest);
    }
    assert SplitOn(rest, '/') == root + SplitOn(p, '/') by {
      SplitTail(root, p);
    }
    ConcatAssoc([[]], root, SplitOn(p, '/'));
  }

  lemma ApplyFromRoot(root: Path, rest: seq<string>)
    requires ValidPath(root)
    ensures Apply([], [[]] + root + rest) == Apply(root, rest)
  {
    ApplyAppend([], [[]] + root, rest);
    ApplyAppend([], [[]], root);
    assert Apply([], [[]]) == Apply([], []);
    ApplyValid([], root);
    assert [] + root == root;
  }

  lemma JoinedRoot(root: Path, p: string)
    requires root != [] && ValidPath(root) && !StartsWith(p, "/")
    ensures Joined(Render(AbsPath(false, root)), p) == Slashed(root) + "/" + p
    ensures !StartsWith(Slashed(root) + "/" + p, "//")
  {
    var base := Slashed(root);
    SlashedNonEmpty(root);
    assert Render(AbsPath(false, root)) == base;
    assert !EndsWith(base, "/");
    var joined := base + "/" + p;
    assert joined[1] == root[0][0];
  }

  /** Joining the rendered root with a relative `p` and normalising applies `p`'s components to
      the root's segments. */
  lemma RelativeJoin(root: Path, p: string)
    requires root != [] && ValidPath(root) && !StartsWith(p, "/")
    ensures AbsJoin(root, p) == AbsPath(false, Apply(root, SplitOn(p, '/')))
  {
    JoinedRoot(root, p);
    SplitRootJoin(root, p);
    ApplyFromRoot(root, SplitOn(p, '/'));
  }

  // ---------------------------------------------------------------------------------------------
  // What each containment check accepts

  /** A `/`-free segment followed by text that is empty or starts a new segment begins with a
      `/`-free `r` exactly when the segment itself does. */
  lemma SegmentPrefix(x: string, y: string, r: string)
    requires '/' !in x && '/' !in r && (y == [] || y[0] == '/')
    ensures StartsWith(x + y, r) <==> StartsWith(x, r)
  {
    if |r| <= |x| {
      assert (x + y)[..|r|] == x[..|r|];
    } else {
      assert |r| > |x| + |y| || r[|x|] != (x + y)[|x|];
    }
  }

  /** Two segment-then-rest texts agree on a prefix ending at a segment boundary exactly when the
      segments are equal and the rests agree. */
  lemma SegmentsPrefix(x: string, y: string, r: string, z: string)
    requires '/' !in x && '/' !in r && (y == [] || y[0] == '/') && z != [] && z[0] == '/'
    ensures StartsWith(x + y, r + z) <==> x == r && StartsWith(y, z)
  {
    if x == r && |z| <= |y| {
      assert (x + y)[..|r + z|] == x + y[..|z|];
    }
    if StartsWith(x + y, r + z) {
      assert (r + z)[..|r|] == r;
      assert (x + y)[..|r + z|][..|r|] == (x + y)[..|r|];
      SegmentPrefix(x, y, r);
      assert |r| == |x| by {
        assert (x + y)[|r|] == '/';
        assert forall i :: 0 <= i < |x| ==> (x + y)[i] == x[i];
      }
      assert x == (x + y)[..|r|];
    }
  }

  /** The rendered-text prefix test, read segment by segment: every segment of the root but the
      last must match exactly, and the last need only be a prefix of the target's. */
  predicate LooseSegmentPrefix(root: Path, t: Path)
    requires root != []
  {
    |root| <= |t| && root[..|root| - 1] == t[..|root| - 1] && StartsWith(t[|root| - 1], root[|root| - 1])
  }

  lemma SlashedStarts(segs: Path)
    requires ValidPath(segs)
    ensures segs == [] || (Slashed(segs) != [] && Slashed(segs)[0] == '/')
  {
    if segs != [] {
      SlashedNonEmpty(segs);
    }
  }

  /** The loose prefix test on a root of two or more segments peels off the first segment. */
  lemma LooseSegmentStep(root: Path, t: Path)
    requires |root| >= 2 && t != []
    ensures LooseSegmentPrefix(root, t) <==> root[0] == t[0] && LooseSegmentPrefix(root[1..], t[1..])
  {
    if |root| <= |t| {
      PrefixCons(root, t, |root| - 1);
      assert root[1..][..|root[1..]| - 1] == root[1..][..|root| - 2];
    }
  }

  lemma {:induction false} SlashedPrefix(root: Path, t: Path)
    requires root != [] && ValidPath(root) && ValidPath(t)
    ensures StartsWith(Slashed(t), Slashed(root)) <==> LooseSegmentPrefix(root, t)
    decreases |root|
  {
    if t == [] {
      SlashedNonEmpty(root);
    } else {
      var x, y := t[0], Slashed(t[1..]);
      var r, z := root[0], Slashed(root[1..]);
      assert StartsWith(Slashed(t), Slashed(root)) <==> StartsWith(x + y, r + z) by {
        assert Slashed(t) == "/" + (x + y);
        assert Slashed(root) == "/" + (r + z);
        StartsWithCons('/', x + y, r + z);
      }
      assert StartsWith(x + y, r + z) <==> LooseSegmentPrefix(root, t) by {
        SlashedStarts(t[1..]);
        if |root| == 1 {
          assert z == [];
          assert r + z == r;
          SegmentPrefix(x, y, r);
        } else {
          SlashedNonEmpty(root[1..]);
          SegmentsPrefix(x, y, r, z);
          SlashedPrefix(root[1..], t[1..]);
          LooseSegmentStep(root, t);
        }
      }
    }
  }

  /** `startswith(ROOT)` holds exactly for a single-slash target whose segments match the root's,
      the last one only as a text prefix. */
  lemma PrefixInsideIff(root: Path, t: AbsPath)
    requires root != [] && ValidPath(root) && ValidPath(t.segs)
    ensures PrefixInside(root, t) <==> !t.doubleSlash && LooseSegmentPrefix(root, t.segs)
  {
    SlashedNonEmpty(root);
    var rendered := Render(t);
    assert Render(AbsPath(false, root)) == Slashed(root);
    if t.doubleSlash {
      assert |rendered| >= 2 && rendered[1] == '/';
    } else if t.segs == [] {
      assert rendered == "/";
    } else {
      assert rendered == Slashed(t.segs);
      SlashedPrefix(root, t.segs);
    }
  }

  /** The pieces of a rendered path are an empty piece and then its segments. */
  lemma RenderSplit(a: Path)
    requires ValidPath(a)
    ensures SplitOn(Render(AbsPath(false, a)), '/') == if a == [] then [[], []] else [[]] + a
  {
    if a == [] {
      assert Render(AbsPath(false, a)) == [] + ['/'] + [];
      SplitLeadingSlash([]);
      assert SplitOn([], '/') == [[]];
    } else {
      var tail := a[0] + Slashed(a[1..]);
      assert Render(AbsPath(false, a)) == [] + ['/'] + tail;
      SplitLeadingSlash(tail);
      SplitSlashed(a[0], a[1..]);
      ConsSplit(a);
    }
  }

  /** Distinct normalised paths render as distinct texts. */
  lemma RenderInjective(a: Path, b: Path)
    requires ValidPath(a) && ValidPath(b) && Render(AbsPath(false, a)) == Render(AbsPath(false, b))
    ensures a == b
  {
    RenderSplit(a);
    RenderSplit(b);
    if a != [] && b != [] {
      assert a == ([[]] + a)[1..];
      assert b == ([[]] + b)[1..];
    }
  }

  /** `commonpath([target, ROOT]) == ROOT` holds exactly when the root's segments lead the
      target's, whatever the target's leading slashes. */
  lemma CommonPathInsideIff(root: Path, t: AbsPath)
    requires ValidPath(root) && ValidPath(t.segs)
    ensures CommonPathInside(root, t) <==> |root| <= |t.segs| && t.segs[..|root|] == root
  {
    var c := CommonPrefix(t.segs, root);
    assert ValidPath(c) by {
      assert forall i :: 0 <= i < |c| ==> c[i] == t.segs[i];
    }
    if CommonPathInside(root, t) {
      RenderInjective(c, root);
    }
    if |root| <= |t.segs| && t.segs[..|root|] == root {
      assert forall i :: 0 <= i < |root| ==> t.segs[i] == root[i];
    }
  }

  /** A segment-prefix target passes both checks; `commonpath` is the stricter of the two for a
      single-slash target. */
  lemma CommonPathImpliesPrefix(root: Path, t: AbsPath)
    requires root != [] && ValidPath(root) && ValidPath(t.segs)
    requires !t.doubleSlash && CommonPathInside(root, t)
    ensures PrefixInside(root, t)
  {
    CommonPathInsideIff(root, t);
    PrefixInsideIff(root, t);
    assert t.segs[..|root|][..|root| - 1] == t.segs[..|root| - 1];
    assert t.segs[|root| - 1] == root[|root| - 1];
  }

  lemma JoinWithStarts(parts: seq<string>, sep: string)
    requires parts != [] && parts[0] != []
    ensures JoinWith(parts, sep) != [] && JoinWith(parts, sep)[0] == parts[0][0]
  {
  }

  /** A relative path written as `/`-joined pieces resolves by applying the pieces to the root. */
  lemma JoinRelative(root: Path, parts: seq<string>)
    requires root != [] && ValidPath(root)
    requires parts != [] && parts[0] != [] && forall k :: 0 <= k < |parts| ==> '/' !in parts[k]
    ensures AbsJoin(root, JoinWith(parts, "/")) == AbsPath(false, Apply(root, parts))
  {
    var p := JoinWith(parts, "/");
    JoinWithStarts(parts, "/");
    assert !StartsWith(p, "/") by {
      assert parts[0][0] != '/';
    }
    RelativeJoin(root, p);
    SplitJoin(parts, '/');
  }

  /** `../Projects-evil/name`: a sibling directory whose name extends the root's last segment
      passes the `startswith` check but not the `commonpath` check. */
  lemma SiblingSlipsPastPrefix(root: Path, extra: string, name: string)
    requires root != [] && ValidPath(root)
    requires extra != [] && '/' !in extra && ValidSegment(name)
    ensures var t := AbsJoin(root, JoinWith(["..", root[|root| - 1] + extra, name], "/"));
      t.segs == Parent(root) + [root[|root| - 1] + extra, name] &&
      PrefixInside(root, t) && !CommonPathInside(root, t)
  {
    var last := root[|root| - 1];
    var sib := last + extra;
    assert ValidSegment(sib) by {
      assert |sib| > |last|;
      assert sib[..|last|] == last;
    }
    var parts := ["..", sib, name];
    JoinRelative(root, parts);
    var segs := Parent(root) + [sib, name];
    assert Apply(root, parts) == segs by {
      assert parts[1..] == [sib, name];
      ApplyValid(Parent(root), [sib, name]);
    }
    var t := AbsPath(false, segs);
    assert ValidPath(segs);
    PrefixInsideIff(root, t);
    assert segs[..|root| - 1] == root[..|root| - 1];
    assert segs[|root| - 1] == sib;
    assert sib[..|last|] == last;
    CommonPathInsideIff(root, t);
    assert segs[..|root|][|root| - 1] == sib;
  }

  /** `../../etc/passwd` climbs two levels out of a root whose second-last segment is not `etc`,
      and both checks refuse it. */
  lemma ParentEscapeRejected(root: Path)
    requires |root| >= 2 && ValidPath(root) && root[|root| - 2] != "etc"
    ensures var t := AbsJoin(root, JoinWith(["..", "..", "etc", "passwd"], "/"));
      t.segs == root[..|root| - 2] + ["etc", "passwd"] &&
      !PrefixInside(root, t) && !CommonPathInside(root, t)
  {
    var parts: seq<string> := ["..", "..", "etc", "passwd"];
    assert forall k :: 0 <= k < |parts| ==> '/' !in parts[k];
    JoinRelative(root, parts);
    var up := root[..|root| - 2];
    var segs := up + ["etc", "passwd"];
    assert Apply(root, parts) == segs by {
      assert Parent(root) == root[..|root| - 1];
      assert Parent(root[..|root| - 1]) == up;
      assert parts[2..] == ["etc", "passwd"];
      ApplyValid(up, ["etc", "passwd"]);
    }
    var t := AbsPath(false, segs);
    assert ValidPath(segs);
    PrefixInsideIff(root, t);
    CommonPathInsideIff(root, t);
    assert segs[|root| - 2] == "etc";
    assert root[..|root| - 1][|root| - 2] == root[|root| - 2];
  }

  lemma SplitDoubleSlash(segs: Path)
    requires segs != [] && ValidPath(segs)
    ensures SplitOn("/" + Slashed(segs), '/') == [[], []] + segs
  {
    var text := Slashed(segs);
    assert SplitOn("/" + text, '/') == [[]] + SplitOn(text, '/') by {
      assert "/" + text == [] + ['/'] + text;
      SplitLeadingSlash(text);
    }
    assert SplitOn(text, '/') == [[]] + segs by {
      assert Render(AbsPath(false, segs)) == text;
      RenderSplit(segs);
    }
    PairThen([], [], segs);
  }

  lemma DoubleSlashPrefix(segs: Path)
    requires segs != [] && ValidPath(segs)
    ensures StartsWith("/" + Slashed(segs), "//") && !StartsWith("/" + Slashed(segs), "///")
  {
    var p := "/" + Slashed(segs);
    SlashedNonEmpty(segs);
    assert p[..2] == "//";
    assert p[2] == segs[0][0];
  }

  /** An absolute target replaces the root: `/a/b` normalises to itself. */
  lemma AbsoluteReplacesRoot(root: Path, segs: Path)
    requires segs != [] && ValidPath(segs)
    ensures AbsJoin(root, Slashed(segs)) == AbsPath(false, segs)
  {
    SlashedNonEmpty(segs);
    assert StartsWith(Slashed(segs), "/");
    assert !StartsWith(Slashed(segs), "//") by {
      assert Slashed(segs)[1] == segs[0][0];
    }
    assert SplitOn(Slashed(segs), '/') == [[]] + segs by {
      RenderSplit(segs);
      assert Render(AbsPath(false, segs)) == Slashed(segs);
    }
    ApplyFromRoot(segs, []);
    ConcatEmpty([[]] + segs);
    ApplyValid([], segs);
  }

  /** `normpath` keeps exactly two leading slashes. */
  lemma DoubleSlashCollapse(segs: Path)
    requires segs != [] && ValidPath(segs)
    ensures Collapse("/" + Slashed(segs)) == AbsPath(true, segs)
  {
    var p := "/" + Slashed(segs);
    DoubleSlashPrefix(segs);
    SplitDoubleSlash(segs);
    assert Apply([], [[], []] + segs) == segs by {
      ApplyAppend([], [[], []], segs);
      assert Apply([], [[], []]) == [];
      ApplyValid([], segs);
    }
  }

  /** A target written with exactly two leading slashes keeps them through normalisation: the
      `commonpath` check ignores them and accepts it, the `startswith` check refuses it. */
  lemma DoubleSlashSplitsChecks(root: Path, name: string)
    requires root != [] && ValidPath(root) && ValidSegment(name)
    ensures var t := AbsJoin(root, "/" + Slashed(root + [name]));
      t == AbsPath(true, root + [name]) && CommonPathInside(root, t) && !PrefixInside(root, t)
  {
    var segs := root + [name];
    assert ValidPath(segs);
    assert AbsJoin(root, "/" + Slashed(segs)) == AbsPath(true, segs) by {
      DoubleSlashCollapse(segs);
    }
    var t := AbsPath(true, segs);
    CommonPathInsideIff(root, t);
    assert segs[..|root|] == root;
    PrefixInsideIff(root, t);
  }

  // ---------------------------------------------------------------------------------------------
  // Extensions

  /** `s.rfind(c)`: the last index of `c`, or -1. */
  function RFind(s: string, c: char): (i: int)
    ensures -1 <= i < |s| && (i >= 0 ==> s[i] == c)
    ensures forall j :: i < j < |s| ==> s[j] != c
    decreases |s|
  {
    if s == [] then -1
    else if s[|s| - 1] == c then |s| - 1
    else RFind(s[..|s| - 1], c)
  }

  /** `os.path.splitext(f)`: the extension runs from the last dot of the last path component,
      unless only dots precede that dot in the component (a leading dot does not count). */
  function SplitExt(f: string): (r: (string, string))
    ensures r.0 + r.1 == f
    ensures r.1 == [] || (r.1[0] == '.' && '.' !in r.1[1..] && '/' !in r.1)
    ensures r.1 != [] ==> exists j :: 0 <= j < |r.0| && r.0[j] != '.'
  {
    var sep := RFind(f, '/');
    var dot := RFind(f, '.');
    if dot > sep && exists j :: sep + 1 <= j < dot && f[j] != '.' then
      assert f[..dot] + f[dot..] == f;
      assert forall k :: 0 <= k < |f[dot..]| - 1 ==> f[dot..][1..][k] == f[dot + 1 + k];
      (f[..dot], f[dot..])
    else (f, [])
  }

  /** `name.ext` splits at its last dot when the name has a character other than a dot. */
  lemma SplitExtAtDot(stem: string, ext: string)
    requires '/' !in stem && '/' !in ext && '.' !in ext
    requires exists j :: 0 <= j < |stem| && stem[j] != '.'
    ensures SplitExt(stem + "." + ext) == (stem, "." + ext)
  {
    var f := stem + "." + ext;
    assert f[|stem|] == '.';
    assert RFind(f, '.') == |stem| by {
      assert forall k :: |stem| < k < |f| ==> f[k] == ext[k - |stem| - 1];
    }
    assert RFind(f, '/') == -1 by {
      assert forall k :: 0 <= k < |f| ==> f[k] != '/' by {
        forall k | 0 <= k < |f|
          ensures f[k] != '/'
        {
          if k < |stem| {
            assert f[k] == stem[k];
          } else if k > |stem| {
            assert f[k] == ext[k - |stem| - 1];
          }
        }
      }
    }
    var j :| 0 <= j < |stem| && stem[j] != '.';
    assert f[j] == stem[j];
    assert f[..|stem|] == stem;
    assert f[|stem|..] == "." + ext;
  }

  /** A dot file such as `.bashrc` has no extension. */
  lemma SplitExtDotFile(w: string)
    requires '/' !in w && '.' !in w
    ensures SplitExt("." + w) == ("." + w, [])
  {
    var f := "." + w;
    assert forall k :: 1 <= k < |f| ==> f[k] == w[k - 1] && f[k] != '.';
    assert f[0] == '.';
    assert RFind(f, '.') == 0;
  }
}
