/** The disk the file tools act on, as a map from normalised absolute path to node, and the POSIX
    calls they make on it: `os.makedirs(exist_ok=True)`, `open` for reading and writing, `os.remove`,
    `os.rename`, `os.listdir`, and the physical lookup of a raw path text. Errors are the Linux
    `errno` values Python reports as `[Errno N] text`. */
module FileSystem {
  import opened Text
  import opened PathGuard

  datatype Node = File(content: string) | Dir

  /** Every node but the root `/`, which always exists and is a directory. */
  type Fs = map<Path, Node>

  predicate IsDir(fs: Fs, p: Path) {
    p == [] || (p in fs && fs[p].Dir?)
  }

  predicate IsFile(fs: Fs, p: Path) {
    p in fs && fs[p].File?
  }

  /** `os.path.exists` */
  predicate Exists(fs: Fs, p: Path) {
    p == [] || p in fs
  }

  /** `p` is `q` or lies below it. */
  predicate Under(p: Path, q: Path) {
    |q| <= |p| && p[..|q|] == q
  }

  /** A well-formed tree: the root is implicit, every name is a valid segment and every node hangs
      in a directory. */
  predicate Tree(fs: Fs) {
    forall p :: p in fs ==> p != [] && ValidPath(p) && IsDir(fs, Parent(p))
  }

  /** The directory `d` has no entries. */
  predicate EmptyDir(fs: Fs, d: Path) {
    forall p :: p in fs ==> p == [] || Parent(p) != d
  }

  lemma ParentUnder(p: Path, q: Path)
    requires p != [] && Under(Parent(p), q)
    ensures Under(p, q)
  {
    assert p[..|q|] == Parent(p)[..|q|];
  }

  lemma ParentNotUnder(p: Path, q: Path)
    requires p != [] && !Under(p, q)
    ensures !Under(Parent(p), q)
  {
    if Under(Parent(p), q) {
      ParentUnder(p, q);
    }
  }

  /** Every proper ancestor of a node is a directory. */
  lemma {:induction false} AncestorIsDir(fs: Fs, p: Path, k: nat)
    requires Tree(fs) && p in fs && k < |p|
    ensures IsDir(fs, p[..k])
    decreases |p| - k
  {
    if k < |p| - 1 {
      var q := Parent(p);
      assert q in fs by {
        assert IsDir(fs, q) && q != [];
      }
      AncestorIsDir(fs, q, k);
      assert q[..k] == p[..k];
    } else {
      assert p[..k] == Parent(p);
    }
  }

  /** A node strictly below `d` makes `d` a non-empty directory. */
  lemma BelowMeansNonEmpty(fs: Fs, p: Path, d: Path)
    requires Tree(fs) && p in fs && Under(p, d) && p != d
    ensures IsDir(fs, d) && !EmptyDir(fs, d)
  {
    AncestorIsDir(fs, p, |d|);
    assert p[..|d|] == d;
    var child := p[..|d| + 1];
    if |d| + 1 < |p| {
      AncestorIsDir(fs, p, |d| + 1);
      assert child in fs;
    } else {
      assert child == p;
    }
    assert Parent(child) == d;
  }

  // ---------------------------------------------------------------------------------------------
  // Errors

  datatype OsError =
    | NoSuchFile         // ENOENT
    | NotADirectory      // ENOTDIR
    | IsADirectory       // EISDIR
    | FileExists         // EEXIST
    | DirectoryNotEmpty  // ENOTEMPTY
    | InvalidArgument    // EINVAL
    | Busy               // EBUSY

  /** `str(e)` without the file names Python appends. */
  function ErrorText(e: OsError): string {
    match e
    case NoSuchFile => "[Errno 2] No such file or directory"
    case NotADirectory => "[Errno 20] Not a directory"
    case IsADirectory => "[Errno 21] Is a directory"
    case FileExists => "[Errno 17] File exists"
    case DirectoryNotEmpty => "[Errno 39] Directory not empty"
    case InvalidArgument => "[Errno 22] Invalid argument"
    case Busy => "[Errno 16] Device or resource busy"
  }

  datatype Outcome<T> = Ok(value: T) | Fail(error: OsError)

  /** The error of looking up a path that does not exist: the nearest existing ancestor decides
      between "no such file" (a directory lacking the next name) and "not a directory" (a file
      with more path after it). */
  function MissingError(fs: Fs, p: Path): (e: OsError)
    requires !Exists(fs, p)
    ensures e == NoSuchFile || e == NotADirectory
    decreases |p|
  {
    if Exists(fs, Parent(p)) then (if IsDir(fs, Parent(p)) then NoSuchFile else NotADirectory)
    else MissingError(fs, Parent(p))
  }

  /** Some proper ancestor of `p` is a file. */
  predicate BelowFile(fs: Fs, p: Path) {
    exists k :: 0 < k < |p| && IsFile(fs, p[..k])
  }

  lemma BelowFileStep(fs: Fs, p: Path)
    requires p != []
    ensures BelowFile(fs, p) <==> BelowFile(fs, Parent(p)) || (Parent(p) != [] && IsFile(fs, Parent(p)))
  {
    var q := Parent(p);
    assert forall k :: 0 < k < |q| ==> p[..k] == q[..k];
    assert p[..|q|] == q;
    if BelowFile(fs, p) {
      var k :| 0 < k < |p| && IsFile(fs, p[..k]);
      if k < |q| {
        assert q[..k] == p[..k];
      }
    }
    if BelowFile(fs, q) {
      var k :| 0 < k < |q| && IsFile(fs, q[..k]);
      assert p[..k] == q[..k];
    }
  }

  lemma NotBelowFile(fs: Fs, q: Path)
    requires Tree(fs) && Exists(fs, q)
    ensures !BelowFile(fs, q)
  {
    if q != [] {
      forall k | 0 < k < |q|
        ensures !IsFile(fs, q[..k])
      {
        AncestorIsDir(fs, q, k);
      }
    }
  }

  /** A missing path below a file reports "not a directory"; with only directories above it,
      "no such file". */
  lemma {:induction false} MissingErrorCases(fs: Fs, p: Path)
    requires Tree(fs) && !Exists(fs, p)
    ensures MissingError(fs, p) == NotADirectory <==> BelowFile(fs, p)
    decreases |p|
  {
    var q := Parent(p);
    BelowFileStep(fs, p);
    if Exists(fs, q) {
      NotBelowFile(fs, q);
    } else {
      MissingErrorCases(fs, q);
    }
  }

  // ---------------------------------------------------------------------------------------------
  // Creating directories and writing, reading and removing files

  /** `os.mkdir(d)` inside `os.makedirs(..., exist_ok=True)`: an existing directory is fine, an
      existing file is not. */
  function MkdirExistOk(fs: Fs, d: Path): Outcome<Fs>
    requires d != []
  {
    if d in fs then (if fs[d].Dir? then Ok(fs) else Fail(FileExists))
    else if IsDir(fs, Parent(d)) then Ok(fs[d := Dir])
    else if Exists(fs, Parent(d)) then Fail(NotADirectory)
    else Fail(MissingError(fs, d))
  }

  /** `fs2` is `fs` with directories added on the way from `/` to `d`. */
  predicate Grows(fs: Fs, fs2: Fs, d: Path) {
    (forall p :: p in fs ==> p in fs2 && fs2[p] == fs[p]) &&
    (forall p :: p in fs2 && p !in fs ==> Under(d, p) && fs2[p] == Dir)
  }

  /** `os.makedirs(d, exist_ok=True)`: the missing ancestors are created from the top, then `d`. */
  function MakeDirs(fs: Fs, d: Path): Outcome<Fs>
    requires ValidPath(d)
    decreases |d|
  {
    if d == [] then Ok(fs)
    else
      var up := Parent(d);
      assert ValidPath(up);
      if Exists(fs, up) then MkdirExistOk(fs, d)
      else
        match MakeDirs(fs, up)
        case Fail(e) => Fail(e)
        case Ok(fs1) => MkdirExistOk(fs1, d)
  }

  lemma MkdirSpec(fs: Fs, d: Path)
    requires Tree(fs) && ValidPath(d) && d != [] && Exists(fs, Parent(d))
    ensures var r := MkdirExistOk(fs, d);
      (r.Ok? <==> !IsFile(fs, d) && !IsFile(fs, Parent(d))) &&
      (r.Fail? ==> r.error == if IsFile(fs, d) then FileExists else NotADirectory) &&
      (r.Ok? ==> Tree(r.value) && IsDir(r.value, d) && Grows(fs, r.value, d))
  {
    if d !in fs && IsDir(fs, Parent(d)) {
      assert Under(d, d);
      var fs2 := fs[d := Dir];
      assert Tree(fs2) by {
        forall p | p in fs2
          ensures p != [] && ValidPath(p) && IsDir(fs2, Parent(p))
        {
        }
      }
    }
  }

  /** `makedirs` succeeds exactly when neither `d` nor any ancestor is a file; it then only adds
      the missing directories on the way to `d`, and otherwise reports the file it met. */
  lemma {:induction false} MakeDirsSpec(fs: Fs, d: Path)
    requires Tree(fs) && ValidPath(d)
    ensures var r := MakeDirs(fs, d);
      (r.Ok? <==> !IsFile(fs, d) && !BelowFile(fs, d)) &&
      (r.Fail? ==> r.error == if IsFile(fs, d) then FileExists else NotADirectory) &&
      (r.Ok? ==> Tree(r.value) && IsDir(r.value, d) && Grows(fs, r.value, d))
    decreases |d|
  {
    if d == [] {
      assert !BelowFile(fs, d);
    } else {
      var up := Parent(d);
      assert ValidPath(up);
      BelowFileStep(fs, d);
      if Exists(fs, up) {
        NotBelowFile(fs, up);
        MkdirSpec(fs, d);
      } else {
        assert d !in fs;
        MakeDirsSpec(fs, up);
        assert up != [];
        match MakeDirs(fs, up)
        case Fail(e) => {}
        case Ok(fs1) => {
          assert d !in fs1;
          MkdirSpec(fs1, d);
          var fs2 := fs1[d := Dir];
          forall p | p in fs2 && p !in fs
            ensures Under(d, p)
          {
            if p != d {
              ParentUnder(d, p);
            }
          }
        }
      }
    }
  }

  /** `makedirs` on a directory that is already there changes nothing. */
  lemma MakeDirsExisting(fs: Fs, d: Path)
    requires Tree(fs) && ValidPath(d) && IsDir(fs, d)
    ensures MakeDirs(fs, d) == Ok(fs)
  {
  }

  /** `open(t, "w")` followed by writing `c`: the file is created or truncated. */
  function WriteFile(fs: Fs, t: Path, c: string): Outcome<Fs>
    requires Tree(fs)
  {
    if IsDir(fs, t) then Fail(IsADirectory)
    else if IsDir(fs, Parent(t)) then Ok(fs[t := File(c)])
    else Fail(MissingError(fs, t))
  }

  /** Writing succeeds exactly on a non-directory inside an existing directory, keeps the tree
      well formed and changes the entry at `t` only. */
  lemma WriteFileSpec(fs: Fs, t: Path, c: string)
    requires Tree(fs) && ValidPath(t)
    ensures var r := WriteFile(fs, t, c);
      (r.Ok? <==> !IsDir(fs, t) && IsDir(fs, Parent(t))) &&
      (r.Ok? ==> Tree(r.value) && r.value[t] == File(c) &&
                 forall p :: p != t ==> (p in r.value <==> p in fs) && (p in fs ==> r.value[p] == fs[p]))
  {
    if !IsDir(fs, t) && IsDir(fs, Parent(t)) {
      var fs2 := fs[t := File(c)];
      assert Tree(fs2) by {
        forall p | p in fs2
          ensures p != [] && ValidPath(p) && IsDir(fs2, Parent(p))
        {
          if p != t {
            assert Parent(p) != t by {
              assert IsDir(fs, Parent(p));
            }
          }
        }
      }
    }
  }

  /** Python's text-mode reading with universal newlines: `\r\n` and a lone `\r` both come back as
      `\n`. */
  function TextModeRead(s: string): (r: string)
    ensures '\r' !in r && |r| <= |s|
    decreases |s|
  {
    if s == [] then []
    else if s[0] == '\r' then
      (if |s| > 1 && s[1] == '\n' then "\n" + TextModeRead(s[2..]) else "\n" + TextModeRead(s[1..]))
    else [s[0]] + TextModeRead(s[1..])
  }

  /** Text without a carriage return reads back as written. */
  lemma {:induction false} TextModeReadPlain(s: string)
    requires '\r' !in s
    ensures TextModeRead(s) == s
    decreases |s|
  {
    if s != [] {
      TextModeReadPlain(s[1..]);
      assert s == [s[0]] + s[1..];
    }
  }

  /** `open(t, "r").read()` */
  function ReadFile(fs: Fs, t: Path): Outcome<string> {
    if IsDir(fs, t) then Fail(IsADirectory)
    else if t in fs then Ok(TextModeRead(fs[t].content))
    else Fail(MissingError(fs, t))
  }

  /** Reading succeeds exactly on a file and then returns its text as text mode decodes it. */
  lemma ReadFileSpec(fs: Fs, t: Path)
    requires Tree(fs)
    ensures ReadFile(fs, t).Ok? <==> IsFile(fs, t)
    ensures IsFile(fs, t) ==> ReadFile(fs, t).value == TextModeRead(fs[t].content)
  {
  }

  /** What was written is what is read, up to carriage returns. */
  lemma ReadAfterWrite(fs: Fs, t: Path, c: string)
    requires Tree(fs) && ValidPath(t) && WriteFile(fs, t, c).Ok?
    ensures ReadFile(WriteFile(fs, t, c).value, t) == Ok(TextModeRead(c))
    ensures '\r' !in c ==> ReadFile(WriteFile(fs, t, c).value, t) == Ok(c)
  {
    WriteFileSpec(fs, t, c);
    if '\r' !in c {
      TextModeReadPlain(c);
    }
  }

  /** `os.remove(t)` */
  function Remove(fs: Fs, t: Path): Outcome<Fs> {
    if IsDir(fs, t) then Fail(IsADirectory)
    else if t in fs then Ok(fs - {t})
    else Fail(MissingError(fs, t))
  }

  /** Removing succeeds exactly on a file, keeps the tree well formed and drops `t` only. */
  lemma RemoveSpec(fs: Fs, t: Path)
    requires Tree(fs)
    ensures var r := Remove(fs, t);
      (r.Ok? <==> IsFile(fs, t)) &&
      (r.Ok? ==> Tree(r.value) && t !in r.value &&
                 forall p :: p != t ==> (p in r.value <==> p in fs) && (p in fs ==> r.value[p] == fs[p]))
  {
    if IsFile(fs, t) {
      var fs2 := fs - {t};
      assert Tree(fs2) by {
        forall p | p in fs2
          ensures p != [] && ValidPath(p) && IsDir(fs2, Parent(p))
        {
          assert IsDir(fs, Parent(p));
        }
      }
    }
  }

  /** The names of the entries of the directory `d`. */
  function Entries(fs: Fs, d: Path): set<string> {
    set p | p in fs && p != [] && Parent(p) == d :: p[|p| - 1]
  }

  /** `os.listdir(d)`, as the set of names it lists in some order. */
  function ListDir(fs: Fs, d: Path): Outcome<set<string>> {
    if IsDir(fs, d) then Ok(Entries(fs, d))
    else if d in fs then Fail(NotADirectory)
    else Fail(MissingError(fs, d))
  }

  /** A listed name is an entry: joined to `d` it names a node of the tree. */
  lemma EntriesAreChildren(fs: Fs, d: Path, name: string)
    requires Tree(fs)
    ensures name in Entries(fs, d) <==> d + [name] in fs
  {
    if name in Entries(fs, d) {
      var p :| p in fs && p != [] && Parent(p) == d && p[|p| - 1] == name;
      assert p == d + [name];
    }
    if d + [name] in fs {
      var p := d + [name];
      assert Parent(p) == d && p[|p| - 1] == name;
    }
  }

  /** Only a directory has entries. */
  lemma NonDirHasNoEntries(fs: Fs, d: Path)
    requires Tree(fs) && !IsDir(fs, d)
    ensures Entries(fs, d) == {}
  {
  }

  lemma EmptyDirHasNoEntries(fs: Fs, d: Path)
    requires Tree(fs)
    ensures EmptyDir(fs, d) <==> Entries(fs, d) == {}
  {
    if !EmptyDir(fs, d) {
      var p :| p in fs && p != [] && Parent(p) == d;
      assert p[|p| - 1] in Entries(fs, d);
    }
    if Entries(fs, d) != {} {
      var n :| n in Entries(fs, d);
      var p :| p in fs && p != [] && Parent(p) == d && p[|p| - 1] == n;
      assert !EmptyDir(fs, d);
    }
  }

  // ---------------------------------------------------------------------------------------------
  // Renaming

  /** The nodes under `src`, each carried to the same place under `dst`. */
  function MovedKeys(fs: Fs, src: Path, dst: Path): set<Path> {
    set p | p in fs && Under(p, src) :: dst + p[|src|..]
  }

  /** Each moved key comes from the node under `src` at the same relative place. */
  lemma MovedKeysSources(fs: Fs, src: Path, dst: Path)
    ensures forall q :: q in MovedKeys(fs, src, dst) ==>
      |dst| <= |q| && q[..|dst|] == dst && src + q[|dst|..] in fs && Under(src + q[|dst|..], src)
  {
    forall q | q in MovedKeys(fs, src, dst)
      ensures |dst| <= |q| && q[..|dst|] == dst && src + q[|dst|..] in fs && Under(src + q[|dst|..], src)
    {
      var p :| p in fs && Under(p, src) && q == dst + p[|src|..];
      assert q[|dst|..] == p[|src|..];
      assert src + p[|src|..] == p;
    }
  }

  /** `fs` with the subtree at `src` moved to `dst`; whatever stood at `dst` is replaced. */
  function MoveTree(fs: Fs, src: Path, dst: Path): Fs {
    MovedKeysSources(fs, src, dst);
    var rest := map p | p in fs && !Under(p, src) && p != dst :: fs[p];
    var moved := map q | q in MovedKeys(fs, src, dst) :: fs[src + q[|dst|..]];
    rest + moved
  }

  /** No node lies strictly below `d`. */
  predicate NothingBelow(fs: Fs, d: Path) {
    forall p :: p in fs && Under(p, d) ==> p == d
  }

  /** Disjoint subtrees: below `a` is never below `b` when neither lies under the other. */
  lemma UnderBoth(p: Path, a: Path, b: Path)
    requires Under(p, a) && !Under(a, b) && !Under(b, a)
    ensures !Under(p, b)
  {
    assert forall k :: 0 <= k < |a| ==> p[k] == a[k];
  }

  lemma UnderAppend(a: Path, r: Path)
    ensures Under(a + r, a) && (a + r)[|a|..] == r
  {
    assert (a + r)[..|a|] == a;
  }

  lemma MoveCarries(fs: Fs, src: Path, dst: Path, r: Path)
    requires src + r in fs
    ensures dst + r in MoveTree(fs, src, dst) && MoveTree(fs, src, dst)[dst + r] == fs[src + r]
  {
    MovedKeysSources(fs, src, dst);
    UnderAppend(src, r);
    UnderAppend(dst, r);
    assert dst + r in MovedKeys(fs, src, dst);
  }

  lemma MoveDrops(fs: Fs, src: Path, dst: Path, p: Path)
    requires !Under(dst, src) && !Under(src, dst) && Under(p, src)
    ensures p !in MoveTree(fs, src, dst)
  {
    MovedKeysSources(fs, src, dst);
    UnderBoth(p, src, dst);
  }

  lemma MoveKeeps(fs: Fs, src: Path, dst: Path, p: Path)
    requires !Under(p, src) && !Under(p, dst)
    ensures p in MoveTree(fs, src, dst) <==> p in fs
    ensures p in fs ==> MoveTree(fs, src, dst)[p] == fs[p]
  {
    MovedKeysSources(fs, src, dst);
    assert p != dst by {
      UnderAppend(dst, []);
      assert dst + [] == dst;
    }
  }

  lemma MoveSources(fs: Fs, src: Path, dst: Path, p: Path)
    requires NothingBelow(fs, dst) && p in MoveTree(fs, src, dst) && Under(p, dst)
    ensures src + p[|dst|..] in fs && MoveTree(fs, src, dst)[p] == fs[src + p[|dst|..]]
  {
    MovedKeysSources(fs, src, dst);
  }

  /** After the move, the subtree that was at `src` is at `dst`, the old subtree is gone, and
      everything outside both is as it was. */
  lemma MoveTreeContents(fs: Fs, src: Path, dst: Path)
    requires !Under(dst, src) && !Under(src, dst) && NothingBelow(fs, dst)
    ensures var fs2 := MoveTree(fs, src, dst);
      (forall r :: src + r in fs ==> dst + r in fs2 && fs2[dst + r] == fs[src + r]) &&
      (forall p :: p in fs2 && Under(p, dst) ==> src + p[|dst|..] in fs) &&
      (forall p :: Under(p, src) ==> p !in fs2) &&
      (forall p :: !Under(p, src) && !Under(p, dst) ==> (p in fs2 <==> p in fs) && (p in fs ==> fs2[p] == fs[p]))
  {
    forall r | src + r in fs {
      MoveCarries(fs, src, dst, r);
    }
    forall p | p in MoveTree(fs, src, dst) && Under(p, dst) {
      MoveSources(fs, src, dst, p);
    }
    forall p | Under(p, src) {
      MoveDrops(fs, src, dst, p);
    }
    forall p | !Under(p, src) && !Under(p, dst) {
      MoveKeeps(fs, src, dst, p);
    }
  }

  lemma ValidAppend(a: Path, b: Path)
    requires ValidPath(a) && ValidPath(b)
    ensures ValidPath(a + b)
  {
    assert forall i :: 0 <= i < |a + b| ==> (a + b)[i] == if i < |a| then a[i] else b[i - |a|];
  }

  lemma ValidSuffix(p: Path, k: nat)
    requires ValidPath(p) && k <= |p|
    ensures ValidPath(p[k..])
  {
    assert forall i :: 0 <= i < |p| - k ==> p[k..][i] == p[k + i];
  }

  /** The node carried to `dst` itself hangs in the directory that held `dst`. */
  lemma MovedTopParent(fs: Fs, src: Path, dst: Path)
    requires src != [] && dst != [] && IsDir(fs, Parent(dst)) && !Under(dst, src) && !Under(src, dst)
    ensures IsDir(MoveTree(fs, src, dst), Parent(dst))
  {
    var up := Parent(dst);
    if up != [] {
      assert !Under(up, src) by {
        if Under(up, src) {
          ParentUnder(dst, src);
        }
      }
      MoveKeeps(fs, src, dst, up);
    }
  }

  /** A node carried from strictly below `src` finds its carried parent. */
  lemma MovedInnerParent(fs: Fs, src: Path, dst: Path, r: Path)
    requires Tree(fs) && src != [] && r != [] && src + r in fs
    ensures Parent(dst + r) == dst + Parent(r) && IsDir(MoveTree(fs, src, dst), dst + Parent(r))
  {
    var r0 := Parent(r);
    DropLastAppend(src, r);
    DropLastAppend(dst, r);
    assert Parent(src + r) == src + r0;
    assert IsDir(fs, src + r0);
    MoveCarries(fs, src, dst, r0);
  }

  /** A node carried from below `src` keeps its parent: the parent was carried too, or it is the
      directory that receives `dst`. */
  lemma MovedParent(fs: Fs, src: Path, dst: Path, q: Path)
    requires Tree(fs) && src != [] && dst != [] && ValidPath(dst) && IsDir(fs, Parent(dst))
    requires !Under(dst, src) && !Under(src, dst)
    requires q in MovedKeys(fs, src, dst)
    ensures q != [] && ValidPath(q) && IsDir(MoveTree(fs, src, dst), Parent(q))
  {
    var p :| p in fs && Under(p, src) && q == dst + p[|src|..];
    var r := p[|src|..];
    assert src + r == p;
    ValidSuffix(p, |src|);
    ValidAppend(dst, r);
    if r == [] {
      assert q == dst;
      MovedTopParent(fs, src, dst);
    } else {
      MovedInnerParent(fs, src, dst, r);
    }
  }


  /** A node left in place keeps its parent, which is neither moved nor replaced. */
  lemma KeptParent(fs: Fs, src: Path, dst: Path, q: Path)
    requires Tree(fs) && NothingBelow(fs, dst) && !Under(dst, src) && !Under(src, dst)
    requires q in fs && !Under(q, src) && q != dst
    ensures IsDir(MoveTree(fs, src, dst), Parent(q))
  {
    assert !Under(q, dst);
    var up := Parent(q);
    if up != [] {
      ParentNotUnder(q, src);
      ParentNotUnder(q, dst);
      MoveKeeps(fs, src, dst, up);
    }
  }

  /** Moving a subtree to a free place in an existing directory, outside itself, keeps the tree
      well formed. */
  lemma MoveTreeTree(fs: Fs, src: Path, dst: Path)
    requires Tree(fs) && src != [] && dst != [] && ValidPath(dst) && IsDir(fs, Parent(dst))
    requires !Under(dst, src) && !Under(src, dst) && NothingBelow(fs, dst)
    ensures Tree(MoveTree(fs, src, dst))
  {
    var fs2 := MoveTree(fs, src, dst);
    forall q | q in fs2
      ensures q != [] && ValidPath(q) && IsDir(fs2, Parent(q))
    {
      if q in MovedKeys(fs, src, dst) {
        MovedParent(fs, src, dst, q);
      } else {
        KeptParent(fs, src, dst, q);
      }
    }
  }

  /** A free place, a file or an empty directory has nothing below it. */
  lemma NothingBelowFree(fs: Fs, d: Path)
    requires Tree(fs) && d != [] && (d !in fs || IsFile(fs, d) || EmptyDir(fs, d))
    ensures NothingBelow(fs, d)
  {
    forall p | p in fs && Under(p, d)
      ensures p == d
    {
      if p != d {
        BelowMeansNonEmpty(fs, p, d);
      }
    }
  }

  /** POSIX's rule for what a rename may overwrite: nothing, a file with a file, or an empty
      directory with a directory. */
  predicate Replaceable(fs: Fs, src: Path, dst: Path)
    requires src in fs
  {
    dst !in fs || (fs[src].File? && fs[dst].File?) || (fs[src].Dir? && fs[dst].Dir? && EmptyDir(fs, dst))
  }

  /** `os.rename(src, dst)` as Linux's `rename(2)` does it, with its errors in the order the
      kernel checks them: `/` cannot be renamed or replaced, both parents must be directories,
      the source must exist, renaming onto itself does nothing, neither path may lie inside the
      other, and the target may only be a file replaced by a file or an empty directory replaced by
      a directory. */
  function Rename(fs: Fs, src: Path, dst: Path): Outcome<Fs>
    requires Tree(fs)
  {
    if src == [] || dst == [] then Fail(Busy)
    else if !IsDir(fs, Parent(src)) then Fail(MissingError(fs, src))
    else if !IsDir(fs, Parent(dst)) then Fail(MissingError(fs, dst))
    else if src !in fs then Fail(NoSuchFile)
    else if src == dst then Ok(fs)
    else if Under(dst, src) then Fail(InvalidArgument)
    else if Under(src, dst) then Fail(DirectoryNotEmpty)
    else if fs[src].File? && IsDir(fs, dst) then Fail(IsADirectory)
    else if fs[src].Dir? && IsFile(fs, dst) then Fail(NotADirectory)
    else if fs[src].Dir? && dst in fs && !EmptyDir(fs, dst) then Fail(DirectoryNotEmpty)
    else Ok(MoveTree(fs, src, dst))
  }

  /** A rename succeeds exactly when the source exists, the target's directory exists, and the
      target is the source itself or a replaceable place outside the source's subtree (and the
      source outside the target's). It then keeps the tree well formed and carries the whole
      subtree from `src` to `dst`, leaving everything outside both as it was. */
  lemma RenameSpec(fs: Fs, src: Path, dst: Path)
    requires Tree(fs) && ValidPath(dst)
    ensures var r := Rename(fs, src, dst);
      (r.Ok? <==> src in fs && IsDir(fs, Parent(dst)) &&
                  (src == dst || (!Under(dst, src) && !Under(src, dst) && Replaceable(fs, src, dst)))) &&
      (r.Ok? ==> Tree(r.value)) &&
      (r.Ok? && src != dst ==>
         src !in r.value &&
         (forall rel :: src + rel in fs ==> dst + rel in r.value && r.value[dst + rel] == fs[src + rel]) &&
         (forall p :: !Under(p, src) && !Under(p, dst) ==>
            (p in r.value <==> p in fs) && (p in fs ==> r.value[p] == fs[p])))
  {
    var r := Rename(fs, src, dst);
    if r.Ok? && src != dst {
      NothingBelowFree(fs, dst);
      MoveTreeTree(fs, src, dst);
      MoveTreeContents(fs, src, dst);
      UnderAppend(src, []);
      assert src + [] == src;
    }
  }

  // ---------------------------------------------------------------------------------------------
  // Raw path texts

  /** The kernel's lookup of the raw components `comps` from the directory `cur`: every
      component but the last must reach an existing directory; the last only names a place. */
  function Walk(fs: Fs, cur: Path, comps: seq<string>): Outcome<Path>
    requires comps != []
    decreases |comps|
  {
    var next := Step(cur, comps[0]);
    if |comps| == 1 then Ok(next)
    else if IsDir(fs, next) then Walk(fs, next, comps[1..])
    else if Exists(fs, next) then Fail(NotADirectory)
    else Fail(MissingError(fs, next))
  }

  /** A lookup that succeeds lands where lexical normalisation says. */
  lemma {:induction false} WalkIsLexical(fs: Fs, cur: Path, comps: seq<string>)
    requires comps != [] && Walk(fs, cur, comps).Ok?
    ensures Walk(fs, cur, comps).value == Apply(cur, comps)
    decreases |comps|
  {
    if |comps| > 1 {
      WalkIsLexical(fs, Step(cur, comps[0]), comps[1..]);
    }
  }

  /** Through existing directories only, the lookup always succeeds. */
  lemma {:induction false} WalkThroughDirs(fs: Fs, cur: Path, comps: seq<string>)
    requires comps != [] && IsDir(fs, cur)
    requires forall k :: 1 <= k < |comps| ==> IsDir(fs, Apply(cur, comps[..k]))
    ensures Walk(fs, cur, comps).Ok?
    decreases |comps|
  {
    if |comps| > 1 {
      var next := Step(cur, comps[0]);
      assert comps[..1] == [comps[0]];
      assert Apply(cur, comps[..1]) == Apply(next, []);
      assert IsDir(fs, next);
      forall k | 1 <= k < |comps| - 1
        ensures IsDir(fs, Apply(next, comps[1..][..k]))
      {
        var ks := comps[..k + 1];
        assert ks[0] == comps[0] && ks[1..] == comps[1..][..k];
        assert IsDir(fs, Apply(cur, ks));
      }
      WalkThroughDirs(fs, next, comps[1..]);
    }
  }

  /** The components of a raw absolute path text. */
  function Components(text: string): seq<string> {
    SplitOn(text, '/')
  }

  /** `os.path.exists(text)` for a raw absolute path text. */
  predicate RawExists(fs: Fs, text: string) {
    var w := Walk(fs, [], Components(text));
    w.Ok? && Exists(fs, w.value)
  }

  /** A final `.` or `..` names no entry of its directory, and `rename(2)` refuses it. */
  predicate DotLast(comps: seq<string>) {
    comps != [] && (comps[|comps| - 1] == "." || comps[|comps| - 1] == "..")
  }

  /** The components `rename(2)` looks up: those of the text without the empty ones that
      trailing slashes leave at its end. The lone empty component of `/` stays. */
  function NamedComponents(comps: seq<string>): (r: seq<string>)
    requires comps != []
    ensures r != [] && |r| <= |comps| && r == comps[..|r|]
    ensures forall k :: |r| <= k < |comps| ==> comps[k] == []
    ensures |r| == 1 || r[|r| - 1] != []
    decreases |comps|
  {
    if |comps| > 1 && comps[|comps| - 1] == [] then NamedComponents(comps[..|comps| - 1]) else comps
  }

  /** The path text ends in a slash. */
  predicate SlashEnded(text: string) {
    text != [] && text[|text| - 1] == '/'
  }

  /** `os.rename(src, dst)` on raw absolute path texts, as Linux's `rename(2)` takes them:
      trailing slashes are dropped before the lookup, a final `.` or `..` is refused, and a
      source that is not a directory may not be written with a trailing slash, nor renamed to
      a target written with one. */
  function RawRename(fs: Fs, src: string, dst: string): Outcome<Fs>
    requires Tree(fs)
  {
    var sc := NamedComponents(Components(src));
    var dc := NamedComponents(Components(dst));
    match Walk(fs, [], sc)
    case Fail(e) => Fail(e)
    case Ok(s) =>
      match Walk(fs, [], dc)
      case Fail(e) => Fail(e)
      case Ok(d) =>
        if DotLast(sc) || DotLast(dc) then Fail(Busy)
        else if (SlashEnded(src) || SlashEnded(dst)) && s != [] && d != []
             && IsDir(fs, Parent(s)) && IsDir(fs, Parent(d)) && IsFile(fs, s) then Fail(NotADirectory)
        else Rename(fs, s, d)
  }

  /** Dropping trailing empty components does not change where they lead. */
  lemma {:induction false} ApplyNamed(st: Path, comps: seq<string>)
    requires comps != []
    ensures Apply(st, NamedComponents(comps)) == Apply(st, comps)
    decreases |comps|
  {
    if |comps| > 1 && comps[|comps| - 1] == [] {
      var init := comps[..|comps| - 1];
      ApplyNamed(st, init);
      ApplyAppend(st, init, [[]]);
      assert init + [[]] == comps;
      var last: seq<string> := [[]];
      assert last[1..] == [];
    }
  }

  /** A leading empty component, from the leading slash, changes nothing. */
  lemma ApplyLeadingEmpty(pre: Path)
    requires ValidPath(pre)
    ensures Apply([], [[]] + pre) == pre
  {
    assert ([[]] + pre)[1..] == pre;
    ApplyValid([], pre);
  }

  /** Every leading part of an existing directory's path is a directory. */
  lemma LeadingDirs(fs: Fs, d: Path, k: nat)
    requires Tree(fs) && IsDir(fs, d) && k <= |d|
    ensures IsDir(fs, d[..k])
  {
    if k < |d| {
      AncestorIsDir(fs, d, k);
    } else {
      assert d[..k] == d;
    }
  }

  /** Each leading part of the components of such a path text reaches a directory. */
  lemma ComponentsThroughDirs(fs: Fs, segs: Path)
    requires Tree(fs) && segs != [] && ValidPath(segs) && IsDir(fs, Parent(segs))
    ensures var comps := [[]] + segs;
      forall k :: 1 <= k < |comps| ==> IsDir(fs, Apply([], comps[..k]))
  {
    var comps := [[]] + segs;
    forall k | 1 <= k < |comps|
      ensures IsDir(fs, Apply([], comps[..k]))
    {
      var pre := segs[..k - 1];
      assert comps[..k] == [[]] + pre;
      ApplyLeadingEmpty(pre);
      LeadingDirs(fs, Parent(segs), k - 1);
      assert Parent(segs)[..k - 1] == pre;
    }
  }

  /** The raw text of a path whose parent is an existing directory is looked up as that path. */
  lemma WalkSlashed(fs: Fs, segs: Path)
    requires Tree(fs) && segs != [] && ValidPath(segs) && IsDir(fs, Parent(segs))
    ensures NamedComponents(Components(Slashed(segs))) == Components(Slashed(segs))
    ensures Walk(fs, [], Components(Slashed(segs))) == Ok(segs)
    ensures !DotLast(Components(Slashed(segs)))
  {
    var comps := [[]] + segs;
    assert Components(Slashed(segs)) == comps by {
      RenderSplit(segs);
    }
    ComponentsThroughDirs(fs, segs);
    WalkThroughDirs(fs, [], comps);
    WalkIsLexical(fs, [], comps);
    ApplyLeadingEmpty(segs);
    assert comps[|comps| - 1] == segs[|segs| - 1];
  }

  /** The text of a path with a segment ends in that segment, not in a slash. */
  lemma SlashedNotSlashEnded(segs: Path)
    requires segs != [] && ValidPath(segs)
    ensures !SlashEnded(Slashed(segs))
  {
    var last := segs[|segs| - 1];
    SlashedAppend(Parent(segs), last);
    assert Parent(segs) + [last] == segs;
    var t := Slashed(segs);
    assert t[|t| - 1] == last[|last| - 1];
    assert last[|last| - 1] in last;
  }

  /** Renaming between the raw texts of two such paths is renaming the paths. */
  lemma RawRenameSlashed(fs: Fs, src: Path, dst: Path)
    requires Tree(fs) && src != [] && dst != [] && ValidPath(src) && ValidPath(dst)
    requires IsDir(fs, Parent(src)) && IsDir(fs, Parent(dst))
    ensures RawRename(fs, Slashed(src), Slashed(dst)) == Rename(fs, src, dst)
  {
    WalkSlashed(fs, src);
    WalkSlashed(fs, dst);
    SlashedNotSlashEnded(src);
    SlashedNotSlashEnded(dst);
  }

  /** A trailing slash adds one empty component to the text's components, which the named
      components drop again. */
  lemma TrailingSlashComponents(text: string)
    ensures Components(text + "/") == Components(text) + [[]]
    ensures NamedComponents(Components(text + "/")) == NamedComponents(Components(text))
  {
    SplitOnAppend(text, [], '/');
    assert text + ['/'] + [] == text + "/";
    assert SplitOn([], '/') == [[]];
    var c := Components(text) + [[]];
    assert c[..|c| - 1] == Components(text);
  }

  /** A trailing slash on either text is dropped before the lookup: a directory is renamed as
      without it, and a file is refused with `ENOTDIR`, whether it is the source that is written
      with the slash or the target. */
  lemma RawRenameTrailingSlash(fs: Fs, src: Path, dst: Path)
    requires Tree(fs) && src != [] && dst != [] && ValidPath(src) && ValidPath(dst)
    requires IsDir(fs, Parent(src)) && IsDir(fs, Parent(dst))
    ensures RawRename(fs, Slashed(src), Slashed(dst) + "/") ==
      if IsFile(fs, src) then Fail(NotADirectory) else Rename(fs, src, dst)
    ensures RawRename(fs, Slashed(src) + "/", Slashed(dst)) ==
      if IsFile(fs, src) then Fail(NotADirectory) else Rename(fs, src, dst)
  {
    WalkSlashed(fs, src);
    WalkSlashed(fs, dst);
    TrailingSlashComponents(Slashed(src));
    TrailingSlashComponents(Slashed(dst));
    SlashedNotSlashEnded(src);
    SlashedNotSlashEnded(dst);
    assert SlashEnded(Slashed(src) + "/") && SlashEnded(Slashed(dst) + "/");
  }

  /** A directory renamed to a free name written with a trailing slash, as in
      `os.rename("/r/d", "/r/x/")`, is moved there. */
  lemma DirRenamedToSlashedName(fs: Fs, src: Path, dst: Path)
    requires Tree(fs) && src != [] && dst != [] && ValidPath(src) && ValidPath(dst)
    requires IsDir(fs, src) && IsDir(fs, Parent(dst)) && dst !in fs && !Under(dst, src)
    ensures var r := RawRename(fs, Slashed(src), Slashed(dst) + "/");
      r.Ok? && src !in r.value && dst in r.value && r.value[dst] == Dir
  {
    DirMovedToFreeName(fs, src, dst);
    RawRenameTrailingSlash(fs, src, dst);
  }

  /** A directory renamed to a free name outside its own subtree is moved there. */
  lemma DirMovedToFreeName(fs: Fs, src: Path, dst: Path)
    requires Tree(fs) && src != [] && dst != [] && ValidPath(dst)
    requires IsDir(fs, src) && IsDir(fs, Parent(dst)) && dst !in fs && !Under(dst, src)
    ensures IsDir(fs, Parent(src)) && !IsFile(fs, src)
    ensures var r := Rename(fs, src, dst);
      r.Ok? && src !in r.value && dst in r.value && r.value[dst] == Dir
  {
    assert IsDir(fs, Parent(src)) by {
      AncestorIsDir(fs, src, |src| - 1);
    }
    assert !Under(src, dst) by {
      if Under(src, dst) && |dst| < |src| {
        AncestorIsDir(fs, src, |dst|);
      }
    }
    RenameSpec(fs, src, dst);
    assert src + [] == src && dst + [] == dst;
  }

  /** A target whose last named component is `.` or `..` is refused with or without a trailing
      slash, and never renamed to. */
  lemma RawRenameDotSlash(fs: Fs, src: string, dst: string, dot: string)
    requires Tree(fs) && (dot == "." || dot == "..")
    ensures RawRename(fs, src, dst + "/" + dot + "/") == RawRename(fs, src, dst + "/" + dot)
    ensures RawRename(fs, src, dst + "/" + dot).Fail?
  {
    var t := dst + "/" + dot;
    TrailingSlashComponents(t);
    assert Components(t) == Components(dst) + [dot] by {
      SplitOnAppend(dst, dot, '/');
      assert dst + ['/'] + dot == t;
      assert '/' !in dot;
    }
    var c := Components(t);
    assert c[|c| - 1] == dot;
  }

  /** A raw rename that succeeds is the rename of the normalised paths. */
  lemma RawRenameIsRename(fs: Fs, src: string, dst: string)
    requires Tree(fs) && RawRename(fs, src, dst).Ok?
    ensures RawRename(fs, src, dst) == Rename(fs, Apply([], Components(src)), Apply([], Components(dst)))
  {
    WalkIsLexical(fs, [], NamedComponents(Components(src)));
    WalkIsLexical(fs, [], NamedComponents(Components(dst)));
    ApplyNamed([], Components(src));
    ApplyNamed([], Components(dst));
  }
}
