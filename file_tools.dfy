/** The file tools of `app/tools/file_tools.py` over the abstract filesystem of `FileSystem`.
    Every tool takes the parsed keyword arguments and answers with a text; the ones that change
    files are given as a pure outcome (the reply and the new filesystem) and carried out by the
    methods of `Workspace`, which holds the filesystem. */
module FileTools {
  import opened Wrappers
  import opened Text
  import opened ArgParser
  import opened Content
  import opened PathGuard
  import opened FileSystem

  /** `PROJECTS_DIR`, the sandbox root, below the home directory `home`. */
  function ProjectsDir(home: Path): Path {
    home + ["Desktop", "Ai Stuff", "AgenticSystem", "Projects"]
  }

  /** A normalised absolute path as Python prints it. */
  function PathText(p: Path): string {
    Render(AbsPath(false, p))
  }

  const DefaultFilename := "new_file.txt"

  /** A tool's reply and the filesystem it leaves behind. */
  datatype Effect = Effect(reply: string, fs: Fs)

  // ---------------------------------------------------------------------------------------------
  // Creating a directory path and a file in one go

  /** The state after `os.makedirs(dirname(t), exist_ok=True)` and `open(t, "w").write(c)`, and
      the error that stopped them, if any. */
  datatype Stored = Stored(fs: Fs, error: Option<OsError>)

  function MakeAndWrite(fs: Fs, t: Path, c: string): (r: Stored)
    requires Tree(fs) && ValidPath(t)
    ensures Tree(r.fs)
  {
    var up := Parent(t);
    MakeDirsSpec(fs, up);
    match MakeDirs(fs, up)
    case Fail(e) => Stored(fs, Some(e))
    case Ok(fs1) =>
      WriteFileSpec(fs1, t, c);
      match WriteFile(fs1, t, c)
      case Fail(e) => Stored(fs1, Some(e))
      case Ok(fs2) => Stored(fs2, None)
  }

  /** `fs2` holds the file `c` at `t`, keeps every other entry of `fs`, and adds only
      directories on the way to `t`. */
  predicate Stores(fs: Fs, fs2: Fs, t: Path, c: string) {
    t in fs2 && fs2[t] == File(c) &&
    (forall p :: p in fs && p != t ==> p in fs2 && fs2[p] == fs[p]) &&
    (forall p :: p in fs2 && p !in fs && p != t ==> Under(Parent(t), p) && fs2[p] == Dir)
  }

  /** The error that stops a store at `t`: the file `makedirs` runs into above `t`, or `t` being a
      directory. */
  function StoreError(fs: Fs, t: Path): OsError {
    if !BelowFile(fs, t) then IsADirectory
    else if IsFile(fs, Parent(t)) then FileExists else NotADirectory
  }

  /** Making the directories and writing succeed exactly when `t` is not a directory and nothing
      above it is a file. On success the file holds `c`; on failure nothing changed, and the error
      is the one `makedirs` or `open` raises. */
  lemma MakeAndWriteSpec(fs: Fs, t: Path, c: string)
    requires Tree(fs) && ValidPath(t)
    ensures var r := MakeAndWrite(fs, t, c);
      (r.error == None <==> !IsDir(fs, t) && !BelowFile(fs, t)) &&
      (r.error == None ==> Stores(fs, r.fs, t, c)) &&
      (r.error != None ==> r.fs == fs && r.error.value == StoreError(fs, t))
  {
    var up := Parent(t);
    MakeDirsSpec(fs, up);
    if t != [] {
      BelowFileStep(fs, t);
    }
    match MakeDirs(fs, up)
    case Fail(e) => {
      assert t != [];
    }
    case Ok(fs1) => {
      WriteFileSpec(fs1, t, c);
      assert IsDir(fs1, t) <==> IsDir(fs, t);
      if IsDir(fs, t) {
        if t != [] {
          assert IsDir(fs, up);
          MakeDirsExisting(fs, up);
        }
      } else {
        assert t != [];
        var fs2 := WriteFile(fs1, t, c).value;
        forall p | p in fs2 && p !in fs && p != t
          ensures Under(up, p) && fs2[p] == Dir
        {
          assert p in fs1;
        }
      }
    }
  }

  // ---------------------------------------------------------------------------------------------
  // create_file, write_file, read_file, file_exists

  /** `create_file`: the target is accepted by the `commonpath` check, its directories are made
      and an empty file is written there. */
  function CreateOutcome(root: Path, fs: Fs, args: ArgMap): Effect
    requires Tree(fs)
  {
    var filename := Get(args, "filename", DefaultFilename);
    var target := AbsJoin(root, filename);
    if !CommonPathInside(root, target) then
      Effect("Access denied: You can only create files inside " + PathText(root), fs)
    else
      var st := MakeAndWrite(fs, target.segs, []);
      match st.error
      case Some(e) => Effect("Error: " + ErrorText(e), st.fs)
      case None => Effect("File '" + filename + "' created successfully in " + PathText(root), st.fs)
  }

  /** A target outside the root by `commonpath` is refused and nothing changes. Inside, creation
      succeeds when the target is not a directory and nothing above it is a file, and then leaves
      an empty file there (replacing any content); otherwise it reports the error and nothing
      changes. */
  lemma CreateOutcomeSpec(root: Path, fs: Fs, args: ArgMap)
    requires Tree(fs)
    ensures var filename := Get(args, "filename", DefaultFilename);
      var target := AbsJoin(root, filename);
      var t := target.segs;
      var r := CreateOutcome(root, fs, args);
      (!CommonPathInside(root, target) ==>
         r == Effect("Access denied: You can only create files inside " + PathText(root), fs)) &&
      (CommonPathInside(root, target) && !IsDir(fs, t) && !BelowFile(fs, t) ==>
         r.reply == "File '" + filename + "' created successfully in " + PathText(root) &&
         Stores(fs, r.fs, t, [])) &&
      (CommonPathInside(root, target) && (IsDir(fs, t) || BelowFile(fs, t)) ==>
         r == Effect("Error: " + ErrorText(StoreError(fs, t)), fs))
  {
    var target := AbsJoin(root, Get(args, "filename", DefaultFilename));
    MakeAndWriteSpec(fs, target.segs, []);
  }

  /** `write_file`: a non-empty `filepath` accepted by the `startswith` check; its directories
      are made and the cleaned content is written. */
  function WriteOutcome(root: Path, fs: Fs, args: ArgMap): Effect
    requires Tree(fs)
  {
    if Missing(args, "filepath") then Effect("Error: Filepath required.", fs)
    else
      var filepath := args["filepath"];
      var content := Get(args, "content", "");
      var target := AbsJoin(root, filepath);
      if !PrefixInside(root, target) then
        Effect("Access denied: You can only write files inside " + PathText(root), fs)
      else
        var st := MakeAndWrite(fs, target.segs, CleanContent(content));
        match st.error
        case Some(e) => Effect("Error writing to file: " + ErrorText(e), st.fs)
        case None => Effect("Successfully wrote content to '" + filepath + "'", st.fs)
  }

  /** Writing needs a file path and a target the `startswith` check accepts, and otherwise refuses
      without changing anything. An accepted write succeeds when the target is not a directory
      and nothing above it is a file, and then stores exactly the cleaned content (content
      defaults to empty); otherwise it reports the error and nothing changes. */
  lemma WriteOutcomeSpec(root: Path, fs: Fs, args: ArgMap)
    requires Tree(fs)
    ensures var r := WriteOutcome(root, fs, args);
      (Missing(args, "filepath") ==> r == Effect("Error: Filepath required.", fs)) &&
      (!Missing(args, "filepath") ==>
         var filepath := args["filepath"];
         var target := AbsJoin(root, filepath);
         var t := target.segs;
         (!PrefixInside(root, target) ==>
            r == Effect("Access denied: You can only write files inside " + PathText(root), fs)) &&
         (PrefixInside(root, target) && !IsDir(fs, t) && !BelowFile(fs, t) ==>
            r.reply == "Successfully wrote content to '" + filepath + "'" &&
            Stores(fs, r.fs, t, CleanContent(Get(args, "content", "")))) &&
         (PrefixInside(root, target) && (IsDir(fs, t) || BelowFile(fs, t)) ==>
            r == Effect("Error writing to file: " + ErrorText(StoreError(fs, t)), fs)))
  {
    if !Missing(args, "filepath") {
      var target := AbsJoin(root, args["filepath"]);
      MakeAndWriteSpec(fs, target.segs, CleanContent(Get(args, "content", "")));
    }
  }

  /** `read_file`: a non-empty `filepath` accepted by the `startswith` check, read in text mode. */
  function ReadOutcome(root: Path, fs: Fs, args: ArgMap): string {
    if Missing(args, "filepath") then "Error: Filepath required."
    else
      var target := AbsJoin(root, args["filepath"]);
      if !PrefixInside(root, target) then
        "Error: File not found or access denied. Files must be inside " + PathText(root)
      else
        match ReadFile(fs, target.segs)
        case Ok(text) => text
        case Fail(e) => "Error reading file: " + ErrorText(e)
  }

  /** Reading refuses a missing file path and a target outside the root by `startswith`; an
      accepted target that is a file is returned as text mode reads it, anything else is reported
      with the error `open` raises. */
  lemma ReadOutcomeSpec(root: Path, fs: Fs, args: ArgMap)
    requires Tree(fs)
    ensures var r := ReadOutcome(root, fs, args);
      (Missing(args, "filepath") ==> r == "Error: Filepath required.") &&
      (!Missing(args, "filepath") ==>
         var target := AbsJoin(root, args["filepath"]);
         var t := target.segs;
         (!PrefixInside(root, target) ==>
            r == "Error: File not found or access denied. Files must be inside " + PathText(root)) &&
         (PrefixInside(root, target) && IsFile(fs, t) ==> r == TextModeRead(fs[t].content)) &&
         (PrefixInside(root, target) && !IsFile(fs, t) ==>
            r == "Error reading file: " + ErrorText(if IsDir(fs, t) then IsADirectory else MissingError(fs, t))))
  {
    if !Missing(args, "filepath") {
      ReadFileSpec(fs, AbsJoin(root, args["filepath"]).segs);
    }
  }

  /** The round trip: after a write of `content` to `filepath` that the checks let through,
      reading `filepath` returns the cleaned content as text mode reads it back, which is the
      cleaned content itself when it holds no carriage return. */
  lemma WriteThenRead(root: Path, fs: Fs, args: ArgMap)
    requires Tree(fs) && !Missing(args, "filepath")
    requires var target := AbsJoin(root, args["filepath"]);
      PrefixInside(root, target) && !IsDir(fs, target.segs) && !BelowFile(fs, target.segs)
    ensures var c := CleanContent(Get(args, "content", ""));
      var after := WriteOutcome(root, fs, args).fs;
      ReadOutcome(root, after, map["filepath" := args["filepath"]]) == TextModeRead(c) &&
      ('\r' !in c ==> ReadOutcome(root, after, map["filepath" := args["filepath"]]) == c)
  {
    var c := CleanContent(Get(args, "content", ""));
    WriteOutcomeSpec(root, fs, args);
    var target := AbsJoin(root, args["filepath"]);
    var after := WriteOutcome(root, fs, args).fs;
    var again := map["filepath" := args["filepath"]];
    assert !Missing(again, "filepath") && again["filepath"] == args["filepath"];
    assert ReadFile(after, target.segs) == Ok(TextModeRead(c));
    if '\r' !in c {
      TextModeReadPlain(c);
    }
  }

  /** `file_exists`: whether the normalised target exists, wherever it is; no containment check. */
  function ExistsOutcome(root: Path, fs: Fs, args: ArgMap): (r: string)
    ensures Missing(args, "filepath") ==> r == "Error: Filepath required."
    ensures !Missing(args, "filepath") ==>
      (r == "True" <==> Exists(fs, AbsJoin(root, args["filepath"]).segs)) &&
      (r == "False" <==> !Exists(fs, AbsJoin(root, args["filepath"]).segs))
  {
    if Missing(args, "filepath") then "Error: Filepath required."
    else if Exists(fs, AbsJoin(root, args["filepath"]).segs) then "True"
    else "False"
  }

  /** `file_exists` answers for paths outside the root too: `/` always exists. */
  lemma ExistsIgnoresRoot(root: Path, fs: Fs)
    ensures ExistsOutcome(root, fs, map["filepath" := "/"]) == "True"
  {
    assert SplitOn("/", '/') == [[], []] by {
      assert "/" == [] + ['/'] + [];
      SplitOnAppend([], [], '/');
    }
    assert Apply([], [[], []]) == [];
  }

  // ---------------------------------------------------------------------------------------------
  // safe_delete_file, safe_rename_file, execute_rename_command

  /** `safe_delete_file` */
  function DeleteOutcome(root: Path, fs: Fs, args: ArgMap): Effect {
    if Missing(args, "filepath") then Effect("Error: Filepath required.", fs)
    else
      var filepath := args["filepath"];
      var target := AbsJoin(root, filepath);
      if !PrefixInside(root, target) then
        Effect("Error: Can only delete files within the Projects directory", fs)
      else if !Exists(fs, target.segs) then Effect("Error: File '" + filepath + "' does not exist", fs)
      else if !IsFile(fs, target.segs) then Effect("Error: '" + filepath + "' is not a file", fs)
      else
        match Remove(fs, target.segs)
        case Ok(fs2) => Effect("Successfully deleted file '" + filepath + "'", fs2)
        case Fail(e) => Effect("Error deleting file: " + ErrorText(e), fs)
  }

  /** Deleting answers a missing path, a target outside the root, a missing target and a target
      that is not a file each with its own error and changes nothing; a file inside the root is
      removed, and nothing else changes. */
  lemma DeleteOutcomeSpec(root: Path, fs: Fs, args: ArgMap)
    requires Tree(fs)
    ensures var r := DeleteOutcome(root, fs, args);
      (Missing(args, "filepath") ==> r == Effect("Error: Filepath required.", fs)) &&
      (!Missing(args, "filepath") ==>
         var filepath := args["filepath"];
         var target := AbsJoin(root, filepath);
         var t := target.segs;
         (!PrefixInside(root, target) ==>
            r == Effect("Error: Can only delete files within the Projects directory", fs)) &&
         (PrefixInside(root, target) && !Exists(fs, t) ==>
            r == Effect("Error: File '" + filepath + "' does not exist", fs)) &&
         (PrefixInside(root, target) && Exists(fs, t) && !IsFile(fs, t) ==>
            r == Effect("Error: '" + filepath + "' is not a file", fs)) &&
         (PrefixInside(root, target) && IsFile(fs, t) ==>
            r.reply == "Successfully deleted file '" + filepath + "'" && Tree(r.fs) && t !in r.fs &&
            forall p :: p != t ==> (p in r.fs <==> p in fs) && (p in fs ==> r.fs[p] == fs[p])))
  {
    if !Missing(args, "filepath") {
      RemoveSpec(fs, AbsJoin(root, args["filepath"]).segs);
    }
  }

  /** `safe_rename_file(old_path, new_path)`: both normalised paths must pass the `startswith`
      check. */
  function SafeRenameOutcome(root: Path, fs: Fs, oldPath: string, newPath: string): Effect
    requires Tree(fs)
  {
    var src := AbsJoin(root, oldPath);
    var dst := AbsJoin(root, newPath);
    if !(PrefixInside(root, src) && PrefixInside(root, dst)) then
      Effect("Error: Can only rename files within the Projects directory", fs)
    else
      match Rename(fs, src.segs, dst.segs)
      case Ok(fs2) => Effect("Successfully renamed '" + oldPath + "' to '" + newPath + "'", fs2)
      case Fail(e) => Effect("Error renaming file: " + ErrorText(e), fs)
  }

  /** The effect of a rename that `Rename` allows: the tree stays well formed, the subtree moves
      from `src` to `dst`, and everything outside both is as it was. */
  ghost predicate Moves(fs: Fs, fs2: Fs, src: Path, dst: Path) {
    Tree(fs2) &&
    (src != dst ==>
       src !in fs2 &&
       (forall rel :: src + rel in fs ==> dst + rel in fs2 && fs2[dst + rel] == fs[src + rel]) &&
       (forall p :: !Under(p, src) && !Under(p, dst) ==>
          (p in fs2 <==> p in fs) && (p in fs ==> fs2[p] == fs[p])))
  }

  /** A rename that `Rename` allows has the effect `Moves` describes. */
  lemma RenameMoves(fs: Fs, src: Path, dst: Path)
    requires Tree(fs) && ValidPath(dst) && Rename(fs, src, dst).Ok?
    ensures Moves(fs, Rename(fs, src, dst).value, src, dst)
  {
    RenameSpec(fs, src, dst);
  }

  /** Renaming refuses either path outside the root by `startswith` without changing anything; it
      succeeds exactly when `os.rename` does, and then moves the subtree; a failed rename changes
      nothing. */
  lemma SafeRenameOutcomeSpec(root: Path, fs: Fs, oldPath: string, newPath: string)
    requires Tree(fs)
    ensures var src := AbsJoin(root, oldPath);
      var dst := AbsJoin(root, newPath);
      var r := SafeRenameOutcome(root, fs, oldPath, newPath);
      (!(PrefixInside(root, src) && PrefixInside(root, dst)) ==>
         r == Effect("Error: Can only rename files within the Projects directory", fs)) &&
      (PrefixInside(root, src) && PrefixInside(root, dst) && Rename(fs, src.segs, dst.segs).Ok? ==>
         r.reply == "Successfully renamed '" + oldPath + "' to '" + newPath + "'" &&
         Moves(fs, r.fs, src.segs, dst.segs)) &&
      (PrefixInside(root, src) && PrefixInside(root, dst) && Rename(fs, src.segs, dst.segs).Fail? ==>
         r == Effect("Error renaming file: " + ErrorText(Rename(fs, src.segs, dst.segs).error), fs))
  {
    var src := AbsJoin(root, oldPath);
    var dst := AbsJoin(root, newPath);
    if Rename(fs, src.segs, dst.segs).Ok? {
      RenameMoves(fs, src.segs, dst.segs);
    }
  }

  /** `execute_rename_command`: both names are needed; the joined paths are checked normalised
      but looked up and renamed as written. */
  function RenameCommandOutcome(root: Path, fs: Fs, args: ArgMap): Effect
    requires Tree(fs)
  {
    if Missing(args, "old_name") || Missing(args, "new_name") then
      Effect("Error: Both old_name and new_name are required", fs)
    else
      var oldName := args["old_name"];
      var newName := args["new_name"];
      var oldPath := Joined(PathText(root), oldName);
      var newPath := Joined(PathText(root), newName);
      if !(PrefixInside(root, Collapse(oldPath)) && PrefixInside(root, Collapse(newPath))) then
        Effect("Error: Can only rename files within the Projects directory", fs)
      else if !RawExists(fs, oldPath) then
        Effect("Error: Source file '" + oldName + "' does not exist", fs)
      else
        match RawRename(fs, oldPath, newPath)
        case Ok(fs2) => Effect("Successfully renamed '" + oldName + "' to '" + newName + "'", fs2)
        case Fail(e) => Effect("Error renaming file: " + ErrorText(e), fs)
  }

  /** A raw rename that succeeds moves the subtree between the normalised paths. */
  lemma RawRenameMoves(fs: Fs, src: string, dst: string)
    requires Tree(fs) && RawRename(fs, src, dst).Ok?
    ensures Moves(fs, RawRename(fs, src, dst).value, Collapse(src).segs, Collapse(dst).segs)
  {
    RawRenameIsRename(fs, src, dst);
    RenameMoves(fs, Collapse(src).segs, Collapse(dst).segs);
  }

  /** The rename tool answers missing names, a path outside the root and a missing source each
      with its own error and changes nothing then; otherwise the rename either succeeds and moves
      the subtree between the normalised paths, or fails and changes nothing. */
  lemma RenameCommandOutcomeSpec(root: Path, fs: Fs, args: ArgMap)
    requires Tree(fs)
    ensures var r := RenameCommandOutcome(root, fs, args);
      (Missing(args, "old_name") || Missing(args, "new_name") ==>
         r == Effect("Error: Both old_name and new_name are required", fs)) &&
      (!Missing(args, "old_name") && !Missing(args, "new_name") ==>
         var oldName := args["old_name"];
         var newName := args["new_name"];
         var oldPath := Joined(PathText(root), oldName);
         var newPath := Joined(PathText(root), newName);
         var src := AbsJoin(root, oldName);
         var dst := AbsJoin(root, newName);
         (!(PrefixInside(root, src) && PrefixInside(root, dst)) ==>
            r == Effect("Error: Can only rename files within the Projects directory", fs)) &&
         (PrefixInside(root, src) && PrefixInside(root, dst) ==>
            (!RawExists(fs, oldPath) ==>
               r == Effect("Error: Source file '" + oldName + "' does not exist", fs)) &&
            (RawExists(fs, oldPath) && RawRename(fs, oldPath, newPath).Ok? ==>
               r.reply == "Successfully renamed '" + oldName + "' to '" + newName + "'" &&
               Moves(fs, r.fs, src.segs, dst.segs)) &&
            (RawExists(fs, oldPath) && RawRename(fs, oldPath, newPath).Fail? ==>
               r == Effect("Error renaming file: " + ErrorText(RawRename(fs, oldPath, newPath).error), fs))))
  {
    if !Missing(args, "old_name") && !Missing(args, "new_name") {
      var oldPath := Joined(PathText(root), args["old_name"]);
      var newPath := Joined(PathText(root), args["new_name"]);
      var inside := PrefixInside(root, Collapse(oldPath)) && PrefixInside(root, Collapse(newPath));
      var r := RenameCommandOutcome(root, fs, args);
      if !inside {
        assert r == Effect("Error: Can only rename files within the Projects directory", fs);
      } else if RawExists(fs, oldPath) && RawRename(fs, oldPath, newPath).Ok? {
        RawRenameMoves(fs, oldPath, newPath);
      }
    }
  }

  // ---------------------------------------------------------------------------------------------
  // The containment checks at work

  /** A path climbing out of the root is refused by every tool that checks, and nothing changes. */
  lemma EscapeRefused(root: Path, fs: Fs, content: string)
    requires Tree(fs) && |root| >= 2 && ValidPath(root) && root[|root| - 2] != "etc"
    ensures var p := JoinWith(["..", "..", "etc", "passwd"], "/");
      CreateOutcome(root, fs, map["filename" := p]) ==
        Effect("Access denied: You can only create files inside " + PathText(root), fs) &&
      WriteOutcome(root, fs, map["filepath" := p, "content" := content]) ==
        Effect("Access denied: You can only write files inside " + PathText(root), fs) &&
      ReadOutcome(root, fs, map["filepath" := p]) ==
        "Error: File not found or access denied. Files must be inside " + PathText(root) &&
      DeleteOutcome(root, fs, map["filepath" := p]) ==
        Effect("Error: Can only delete files within the Projects directory", fs)
  {
    var p := JoinWith(["..", "..", "etc", "passwd"], "/");
    ParentEscapeRejected(root);
    JoinWithStarts(["..", "..", "etc", "passwd"], "/");
    assert p != [];
    var t := AbsJoin(root, p);
    assert !PrefixInside(root, t) && !CommonPathInside(root, t);
    var named, pathed := map["filename" := p], map["filepath" := p];
    var writing := map["filepath" := p, "content" := content];
    assert Get(named, "filename", DefaultFilename) == p;
    assert !Missing(pathed, "filepath") && pathed["filepath"] == p;
    assert !Missing(writing, "filepath") && writing["filepath"] == p;
  }

  /** The two checks disagree on a sibling of the root whose name extends the root's own: a
      `write_file` to `../<root name><extra>/<name>` passes the `startswith` check and stores the
      file outside the root, where `create_file` with the same name is refused. */
  lemma SiblingWriteEscapes(root: Path, fs: Fs, extra: string, name: string, content: string)
    requires Tree(fs) && root != [] && ValidPath(root)
    requires extra != [] && '/' !in extra && ValidSegment(name)
    requires var t := Parent(root) + [root[|root| - 1] + extra, name];
      !IsDir(fs, t) && !BelowFile(fs, t)
    ensures var p := JoinWith(["..", root[|root| - 1] + extra, name], "/");
      var t := Parent(root) + [root[|root| - 1] + extra, name];
      !Under(t, root) &&
      Stores(fs, WriteOutcome(root, fs, map["filepath" := p, "content" := content]).fs, t, CleanContent(content)) &&
      CreateOutcome(root, fs, map["filename" := p]) ==
        Effect("Access denied: You can only create files inside " + PathText(root), fs)
  {
    var last := root[|root| - 1];
    var p := JoinWith(["..", last + extra, name], "/");
    var t := Parent(root) + [last + extra, name];
    SiblingSlipsPastPrefix(root, extra, name);
    JoinWithStarts(["..", last + extra, name], "/");
    assert p != [];
    var args := map["filepath" := p, "content" := content];
    assert !Missing(args, "filepath") && args["filepath"] == p && Get(args, "content", "") == content;
    WriteOutcomeSpec(root, fs, args);
    assert t[|root| - 1] == last + extra;
    assert |last + extra| > |last|;
  }

  // ---------------------------------------------------------------------------------------------
  // Paths below a directory, as raw text

  lemma SlashedLast(segs: Path)
    requires segs != [] && ValidPath(segs)
    ensures Slashed(segs) != [] && Slashed(segs)[|Slashed(segs)| - 1] != '/'
  {
    SlashedAppend(Parent(segs), segs[|segs| - 1]);
    assert Parent(segs) + [segs[|segs| - 1]] == segs;
  }

  /** Joining a name to the printed path of a directory gives the printed path of the child. */
  lemma JoinedChild(dir: Path, name: string)
    requires ValidPath(dir) && ValidSegment(name)
    ensures Joined(PathText(dir), name) == Slashed(dir + [name])
  {
    SlashedAppend(dir, name);
    assert !StartsWith(name, "/") by {
      assert name[0] != '/';
    }
    if dir != [] {
      SlashedLast(dir);
      assert !EndsWith(PathText(dir), "/");
    }
  }

  // ---------------------------------------------------------------------------------------------
  // list_files

  /** What a tool gives back: the text it returns, or the exception that escapes it. */
  datatype Reply = Says(text: string) | Raises(exception: string)

  /** The names of a directory, each once, in the order `os.listdir` happens to give them. */
  ghost predicate IsListing(order: seq<string>, names: set<string>) {
    (forall x :: x in order <==> x in names) &&
    (forall i, j :: 0 <= i < j < |order| ==> order[i] != order[j])
  }

  /** `os.listdir`'s order: some order of the names, to be fixed by nothing but the OS. */
  method ListingOf(names: set<string>) returns (order: seq<string>)
    ensures IsListing(order, names)
  {
    order := [];
    var left := names;
    while left != {}
      invariant forall x :: x in order ==> x in names && x !in left
      invariant forall x :: x in names ==> x in order || x in left
      invariant left <= names
      invariant forall i, j :: 0 <= i < j < |order| ==> order[i] != order[j]
      decreases left
    {
      var x :| x in left;
      order := order + [x];
      left := left - {x};
    }
  }

  /** `list_files` with the listing in the order `order`: only a missing root is caught. */
  function ListFilesReply(root: Path, fs: Fs, order: seq<string>): Reply {
    match ListDir(fs, root)
    case Ok(_) =>
      var joined := JoinWith(order, "\n");
      Says(if joined == [] then "No files found." else joined)
    case Fail(e) =>
      if e == NoSuchFile then Says("Error: Projects directory not found.")
      else Raises("NotADirectoryError: " + ErrorText(e))
  }

  /** An empty root lists as `No files found.`, any other as its names joined by newlines; a
      missing root gives its own message, and a root that is, or lies below, a file raises. */
  lemma ListFilesSpec(root: Path, fs: Fs, order: seq<string>)
    requires Tree(fs) && IsListing(order, Entries(fs, root))
    ensures IsDir(fs, root) && EmptyDir(fs, root) ==> ListFilesReply(root, fs, order) == Says("No files found.")
    ensures IsDir(fs, root) && !EmptyDir(fs, root) ==> ListFilesReply(root, fs, order) == Says(JoinWith(order, "\n"))
    ensures !Exists(fs, root) && MissingError(fs, root) == NoSuchFile ==>
      ListFilesReply(root, fs, order) == Says("Error: Projects directory not found.")
    ensures (IsFile(fs, root) || (!Exists(fs, root) && MissingError(fs, root) == NotADirectory)) ==>
      ListFilesReply(root, fs, order) == Raises("NotADirectoryError: " + ErrorText(NotADirectory))
  {
    EmptyDirHasNoEntries(fs, root);
    assert forall i :: 0 <= i < |order| ==> order[i] in Entries(fs, root);
    if IsDir(fs, root) && !EmptyDir(fs, root) {
      var n :| n in Entries(fs, root);
      assert n in order;
      assert order != [];
      EntriesAreChildren(fs, root, order[0]);
      assert ValidPath(root + [order[0]]);
      assert (root + [order[0]])[|root|] == order[0];
      JoinWithStarts(order, "\n");
    }
  }

  // ---------------------------------------------------------------------------------------------
  // rename_files_in_directory

  /** The new name: the suffix goes between the stem and the extension. */
  function Suffixed(filename: string, suffix: string): string {
    SplitExt(filename).0 + suffix + SplitExt(filename).1
  }

  lemma NotDots(n: string, j: nat)
    requires j < |n| && n[j] != '.'
    ensures n != "." && n != ".."
  {
  }

  /** A suffix without a slash turns a valid name into a valid name. */
  lemma SuffixedValid(filename: string, suffix: string)
    requires ValidSegment(filename) && '/' !in suffix
    ensures ValidSegment(Suffixed(filename, suffix))
  {
    var (stem, ext) := SplitExt(filename);
    var n := Suffixed(filename, suffix);
    assert n == stem + (suffix + ext);
    assert '/' !in stem by {
      assert stem == filename[..|stem|];
    }
    assert '/' !in n;
    if ext != [] {
      var j :| 0 <= j < |stem| && stem[j] != '.';
      assert n[j] == stem[j];
      NotDots(n, j);
    } else {
      assert n == filename + suffix;
      assert n[..|filename|] == filename;
    }
  }

  /** Whether the loop renames `filename`: a regular file whose stem lacks the suffix. */
  predicate Renames(fs: Fs, dir: Path, filename: string, suffix: string) {
    IsFile(fs, dir + [filename]) && !EndsWith(SplitExt(filename).0, suffix)
  }

  function RenamedLine(filename: string, suffix: string): string {
    "Renamed '" + filename + "' to '" + Suffixed(filename, suffix) + "'"
  }

  /** The loop's state: the filesystem, the lines reported so far, and the error that ended the
      loop, if one did. */
  datatype Bulk = Bulk(fs: Fs, lines: seq<string>, failure: Option<OsError>)

  /** One pass of the loop over the listed `filename`; after an error nothing more happens. */
  function BulkStep(dir: Path, suffix: string, st: Bulk, filename: string): (r: Bulk)
    requires Tree(st.fs)
    ensures Tree(r.fs)
  {
    if st.failure.Some? || !Renames(st.fs, dir, filename, suffix) then st
    else
      var src := Joined(PathText(dir), filename);
      var dst := Joined(PathText(dir), Suffixed(filename, suffix));
      match RawRename(st.fs, src, dst)
      case Fail(e) => Bulk(st.fs, st.lines, Some(e))
      case Ok(fs2) =>
        RawRenameMoves(st.fs, src, dst);
        Bulk(fs2, st.lines + [RenamedLine(filename, suffix)], None)
  }

  /** The loop over the listing `names`, as far as it goes. */
  function BulkRun(dir: Path, suffix: string, st: Bulk, names: seq<string>): (r: Bulk)
    requires Tree(st.fs)
    ensures Tree(r.fs)
    decreases |names|
  {
    if names == [] then st
    else BulkStep(dir, suffix, BulkRun(dir, suffix, st, names[..|names| - 1]), names[|names| - 1])
  }

  function BulkReply(st: Bulk): string {
    if st.failure.Some? then "Error renaming files: " + ErrorText(st.failure.value)
    else if st.lines == [] then "No files were renamed"
    else JoinWith(st.lines, "\n")
  }

  /** `rename_files_in_directory(dir, suffix)` with the listing in the order `order`. */
  function BulkOutcome(dir: Path, fs: Fs, suffix: string, order: seq<string>): Effect
    requires Tree(fs)
  {
    match ListDir(fs, dir)
    case Fail(e) => Effect("Error renaming files: " + ErrorText(e), fs)
    case Ok(_) =>
      var st := BulkRun(dir, suffix, Bulk(fs, [], None), order);
      Effect(BulkReply(st), st.fs)
  }

  /** Once an error has ended the loop, the rest of the listing changes nothing. */
  lemma {:induction false} BulkStuck(dir: Path, suffix: string, st: Bulk, names: seq<string>, k: nat)
    requires Tree(st.fs) && k <= |names| && BulkRun(dir, suffix, st, names[..k]).failure.Some?
    ensures BulkRun(dir, suffix, st, names) == BulkRun(dir, suffix, st, names[..k])
    decreases |names|
  {
    if k == |names| {
      assert names[..k] == names;
    } else {
      var init := names[..|names| - 1];
      assert init[..k] == names[..k];
      BulkStuck(dir, suffix, st, init, k);
    }
  }

  /** One pass adds at most the line for `filename`; it leaves the state clean (nothing renamed,
      nothing failed) exactly when it was clean and `filename` is not renamed, and then keeps
      the filesystem. */
  lemma BulkStepShape(dir: Path, suffix: string, st: Bulk, filename: string)
    requires Tree(st.fs)
    ensures var r := BulkStep(dir, suffix, st, filename);
      (r.lines == st.lines || r.lines == st.lines + [RenamedLine(filename, suffix)]) &&
      (r.failure == None && r.lines == [] <==>
         st.failure == None && st.lines == [] && !Renames(st.fs, dir, filename, suffix)) &&
      (r.failure == None && r.lines == [] ==> r.fs == st.fs)
  {
  }

  /** No listed name is a regular file whose stem lacks the suffix. */
  predicate NoneRenamed(fs: Fs, dir: Path, names: seq<string>, suffix: string) {
    forall k :: 0 <= k < |names| ==> !Renames(fs, dir, names[k], suffix)
  }

  lemma NoneRenamedSnoc(fs: Fs, dir: Path, names: seq<string>, suffix: string)
    requires names != []
    ensures NoneRenamed(fs, dir, names, suffix) <==>
      NoneRenamed(fs, dir, names[..|names| - 1], suffix) && !Renames(fs, dir, names[|names| - 1], suffix)
  {
    var init := names[..|names| - 1];
    assert forall k :: 0 <= k < |init| ==> init[k] == names[k];
  }

  /** Nothing is renamed, and nothing fails, exactly when no listed name is a regular file whose
      stem lacks the suffix; the filesystem is then as it was. */
  lemma {:induction false} BulkNoneRenamed(dir: Path, suffix: string, fs: Fs, names: seq<string>)
    requires Tree(fs)
    ensures var r := BulkRun(dir, suffix, Bulk(fs, [], None), names);
      (r.failure == None && r.lines == [] <==> NoneRenamed(fs, dir, names, suffix)) &&
      (r.failure == None && r.lines == [] ==> r.fs == fs)
    decreases |names|
  {
    if names != [] {
      var init := names[..|names| - 1];
      BulkNoneRenamed(dir, suffix, fs, init);
      var mid := BulkRun(dir, suffix, Bulk(fs, [], None), init);
      BulkStepShape(dir, suffix, mid, names[|names| - 1]);
      NoneRenamedSnoc(fs, dir, names, suffix);
    }
  }

  /** Every line of `lines` reports the renaming of one of `names`. */
  predicate LinesFrom(lines: seq<string>, names: seq<string>, suffix: string) {
    forall i :: 0 <= i < |lines| ==> exists k :: 0 <= k < |names| && lines[i] == RenamedLine(names[k], suffix)
  }

  /** Lines from all but the last name are lines from all names, and so is the line of the last. */
  lemma LinesFromExtend(lines: seq<string>, names: seq<string>, suffix: string)
    requires names != [] && LinesFrom(lines, names[..|names| - 1], suffix)
    ensures LinesFrom(lines, names, suffix)
    ensures LinesFrom(lines + [RenamedLine(names[|names| - 1], suffix)], names, suffix)
  {
    var init := names[..|names| - 1];
    var last := RenamedLine(names[|names| - 1], suffix);
    var lines' := lines + [last];
    forall i | 0 <= i < |lines|
      ensures exists k :: 0 <= k < |names| && lines[i] == RenamedLine(names[k], suffix)
    {
      var k :| 0 <= k < |init| && lines[i] == RenamedLine(init[k], suffix);
      assert init[k] == names[k];
    }
    forall i | 0 <= i < |lines'|
      ensures exists k :: 0 <= k < |names| && lines'[i] == RenamedLine(names[k], suffix)
    {
      if i < |lines| {
        assert lines'[i] == lines[i];
      } else {
        assert lines'[i] == last;
      }
    }
  }

  /** Every reported line names a listed file and its new name. */
  lemma {:induction false} BulkLines(dir: Path, suffix: string, fs: Fs, names: seq<string>)
    requires Tree(fs)
    ensures var r := BulkRun(dir, suffix, Bulk(fs, [], None), names);
      |r.lines| <= |names| && LinesFrom(r.lines, names, suffix)
    decreases |names|
  {
    if names != [] {
      var init := names[..|names| - 1];
      var last := names[|names| - 1];
      BulkLines(dir, suffix, fs, init);
      var mid := BulkRun(dir, suffix, Bulk(fs, [], None), init);
      BulkStepShape(dir, suffix, mid, last);
      LinesFromExtend(mid.lines, names, suffix);
    }
  }

  /** The reply is `No files were renamed` exactly when the loop renamed nothing and met no
      error. */
  lemma BulkReplyNothing(st: Bulk)
    requires forall i :: 0 <= i < |st.lines| ==> StartsWith(st.lines[i], "R")
    ensures BulkReply(st) == "No files were renamed" <==> st.failure == None && st.lines == []
  {
    if st.failure.Some? {
      var msg := "Error renaming files: " + ErrorText(st.failure.value);
      assert msg[0] == 'E';
    } else if st.lines != [] {
      JoinWithStarts(st.lines, "\n");
    }
  }

  /** With a suffix free of slashes, a renamed file stays in its directory: the step is the
      rename from `dir/filename` to `dir/name+suffix+ext`. */
  lemma BulkStepInPlace(dir: Path, suffix: string, st: Bulk, filename: string)
    requires Tree(st.fs) && st.failure == None && ValidPath(dir) && dir != [] && ValidSegment(filename)
    requires '/' !in suffix && Renames(st.fs, dir, filename, suffix)
    ensures var newName := Suffixed(filename, suffix);
      var moved := Rename(st.fs, dir + [filename], dir + [newName]);
      ValidSegment(newName) &&
      BulkStep(dir, suffix, st, filename) ==
        if moved.Ok? then Bulk(moved.value, st.lines + [RenamedLine(filename, suffix)], None)
        else Bulk(st.fs, st.lines, Some(moved.error))
  {
    var newName := Suffixed(filename, suffix);
    SuffixedValid(filename, suffix);
    JoinedChild(dir, filename);
    JoinedChild(dir, newName);
    assert Parent(dir + [filename]) == dir && Parent(dir + [newName]) == dir;
    assert IsDir(st.fs, dir) by {
      assert IsDir(st.fs, Parent(dir + [filename]));
    }
    RawRenameSlashed(st.fs, dir + [filename], dir + [newName]);
  }

  // ---------------------------------------------------------------------------------------------
  // execute_terminal_command

  /** The commands whose file arguments are checked against the root, spelt exactly so. */
  const FileCommands: seq<string> := ["mv", "cp", "rm", "touch"]

  /** The `timeout` argument: absent, so the default of 30 seconds, or the text it was given as. */
  datatype Timeout = DefaultTimeout | GivenTimeout(text: string)

  /** The verdict of the checks made before a process is started: a refusal, the `IndexError`
      of a command that is only whitespace, or the command to start. */
  datatype Verdict = Refuse(message: string) | Crash | Spawn(command: string, timeout: Timeout)

  /** How the started process ended as far as the tool sees it: its exit status and output, or
      the 30 seconds running out. */
  datatype Run = Finished(code: int, stdout: string, stderr: string) | TimedOut

  /** A word of a file command that the check turns down: not an option, and outside the root by
      `startswith` once joined to `cwd` and made absolute against the process directory. */
  predicate Stray(root: Path, process: Path, cwd: string, arg: string) {
    !StartsWith(arg, "-") && !PrefixInside(root, AbsJoin(process, Joined(cwd, arg)))
  }

  /** The `cwd` argument, `PROJECTS_DIR` when absent. */
  function CwdOf(root: Path, args: ArgMap): string {
    Get(args, "cwd", PathText(root))
  }

  function TimeoutOf(args: ArgMap): Timeout {
    if "timeout" in args then GivenTimeout(args["timeout"]) else DefaultTimeout
  }

  /** The checks of `execute_terminal_command`, as one verdict. */
  function PrecheckOutcome(root: Path, process: Path, args: ArgMap): Verdict {
    if Missing(args, "command") then Refuse("Error: Command required.")
    else
      var command := args["command"];
      var cwd := CwdOf(root, args);
      if !PrefixInside(root, AbsJoin(process, cwd)) then
        Refuse("Error: Operations are only allowed within the Projects directory")
      else
        var parts := Words(command);
        if parts == [] then Crash
        else if parts[0] in FileCommands && exists k :: 1 <= k < |parts| && Stray(root, process, cwd, parts[k]) then
          Refuse("Error: Cannot access paths outside of " + PathText(root))
        else Spawn(command, TimeoutOf(args))
  }

  /** The search over the arguments of a file command, for any test `bad` on them: whether
      `bad` holds of one of `parts[from..]`, looking from the left and stopping at the first. */
  method FindFrom(bad: string -> bool, parts: seq<string>, from: nat) returns (found: bool)
    ensures found <==> exists k :: from <= k < |parts| && bad(parts[k])
  {
    var i := from;
    while i < |parts|
      invariant from <= i
      invariant forall k :: from <= k < i && k < |parts| ==> !bad(parts[k])
    {
      if bad(parts[i]) {
        return true;
      }
      i := i + 1;
    }
    return false;
  }

  /** The loop over the arguments of a file command: whether one of `parts[1..]` strays. */
  method AnyStray(root: Path, process: Path, cwd: string, parts: seq<string>) returns (found: bool)
    ensures found <==> exists k :: 1 <= k < |parts| && Stray(root, process, cwd, parts[k])
  {
    var bad := arg => Stray(root, process, cwd, arg);
    found := FindFrom(bad, parts, 1);
    assert forall k :: 1 <= k < |parts| ==> bad(parts[k]) == Stray(root, process, cwd, parts[k]);
  }

  /** The checks as the tool makes them, in order. */
  method Precheck(root: Path, process: Path, args: ArgMap) returns (p: Verdict)
    ensures p == PrecheckOutcome(root, process, args)
  {
    if Missing(args, "command") {
      return Refuse("Error: Command required.");
    }
    var command := args["command"];
    var cwd := CwdOf(root, args);
    if !PrefixInside(root, AbsJoin(process, cwd)) {
      return Refuse("Error: Operations are only allowed within the Projects directory");
    }
    var parts := Words(command);
    if parts == [] {
      return Crash;
    }
    if parts[0] in FileCommands {
      var stray := AnyStray(root, process, cwd, parts);
      if stray {
        return Refuse("Error: Cannot access paths outside of " + PathText(root));
      }
    }
    return Spawn(command, TimeoutOf(args));
  }

  /** The reply for a process that ran to its end: the stripped output on success, the stripped
      error output on failure. */
  function FormatResult(code: int, stdout: string, stderr: string): string {
    if code == 0 then
      var output := Strip(stdout);
      if output != [] then "Command executed successfully:\n" + output
      else "Command executed successfully (no output)"
    else "Command failed with error:\n" + Strip(stderr)
  }

  /** The error of starting a process in the directory `p`, which is not a directory. */
  function SpawnError(fs: Fs, p: Path): OsError {
    if Exists(fs, p) then NotADirectory else MissingError(fs, p)
  }

  /** `execute_terminal_command`: the checks, then a shell started in the root whatever `cwd`
      says. A given timeout is text, and waiting with it raises the `TypeError` that the tool
      reports; otherwise `run` is how the process ended. */
  function TerminalOutcome(root: Path, process: Path, fs: Fs, args: ArgMap, run: Run): Reply {
    VerdictReply(root, fs, PrecheckOutcome(root, process, args), run)
  }

  /** `execute_terminal_command` starts a process: the checks let the command through and
      `Popen` finds the root to run in. */
  predicate Starts(root: Path, process: Path, fs: Fs, args: ArgMap) {
    PrecheckOutcome(root, process, args).Spawn? && IsDir(fs, root)
  }

  /** The reply once the checks have given their verdict. */
  function VerdictReply(root: Path, fs: Fs, verdict: Verdict, run: Run): Reply {
    match verdict
    case Refuse(message) => Says(message)
    case Crash => Raises("IndexError: list index out of range")
    case Spawn(_, timeout) =>
      if !IsDir(fs, root) then Says("Error executing command: " + ErrorText(SpawnError(fs, root)))
      else if timeout.GivenTimeout? then
        Says("Error executing command: unsupported operand type(s) for +: 'float' and 'str'")
      else
        match run
        case TimedOut => Says("Command timed out after 30 seconds")
        case Finished(code, stdout, stderr) => Says(FormatResult(code, stdout, stderr))
  }

  /** A process starts exactly when a command is given, the working directory is inside the root,
      the command has a first word and, for a file command, no argument strays outside the root. */
  lemma SpawnIff(root: Path, process: Path, args: ArgMap)
    ensures PrecheckOutcome(root, process, args).Spawn? <==>
      !Missing(args, "command") &&
      PrefixInside(root, AbsJoin(process, CwdOf(root, args))) &&
      Words(args["command"]) != [] &&
      (Words(args["command"])[0] in FileCommands ==>
         forall k :: 1 <= k < |Words(args["command"])| ==>
           !Stray(root, process, CwdOf(root, args), Words(args["command"])[k]))
    ensures PrecheckOutcome(root, process, args).Spawn? ==>
      PrecheckOutcome(root, process, args) == Spawn(args["command"], TimeoutOf(args))
  {
  }

  /** Without a `cwd` the working directory check always passes: the root is inside itself,
      wherever the process runs. */
  lemma DefaultCwdInside(root: Path, process: Path, args: ArgMap)
    requires root != [] && ValidPath(root) && "cwd" !in args
    ensures PrefixInside(root, AbsJoin(process, CwdOf(root, args)))
  {
    var text := PathText(root);
    assert CwdOf(root, args) == text;
    assert text == Slashed(root);
    AbsoluteReplacesRoot(process, root);
    assert text[..|text|] == text;
  }

  /** A file command with an argument outside the root is refused before anything runs. */
  lemma StrayRefused(root: Path, process: Path, args: ArgMap, k: nat)
    requires !Missing(args, "command") && PrefixInside(root, AbsJoin(process, CwdOf(root, args)))
    requires Words(args["command"]) != [] && Words(args["command"])[0] in FileCommands
    requires 1 <= k < |Words(args["command"])| && Stray(root, process, CwdOf(root, args), Words(args["command"])[k])
    ensures PrecheckOutcome(root, process, args) == Refuse("Error: Cannot access paths outside of " + PathText(root))
  {
  }

  /** The argument check is by exact spelling: any command whose first word is not one of the
      four file commands, `MV` and `Rm` included, runs with whatever arguments it has. */
  lemma OtherCommandsUnchecked(root: Path, process: Path, args: ArgMap)
    requires root != [] && ValidPath(root) && "cwd" !in args
    requires !Missing(args, "command") && Words(args["command"]) != []
    requires Words(args["command"])[0] !in FileCommands
    ensures PrecheckOutcome(root, process, args) == Spawn(args["command"], TimeoutOf(args))
  {
    DefaultCwdInside(root, process, args);
  }

  /** Only a present command without words crashes the checks. */
  lemma CrashOnlyBlank(root: Path, process: Path, args: ArgMap)
    ensures PrecheckOutcome(root, process, args) == Crash ==>
      !Missing(args, "command") && Words(args["command"]) == []
  {
  }

  /** A command of only whitespace gets past the empty check and crashes on its first word. */
  lemma BlankCommandCrashes(root: Path, process: Path, args: ArgMap)
    requires root != [] && ValidPath(root) && "cwd" !in args
    requires !Missing(args, "command") && forall i :: 0 <= i < |args["command"]| ==> IsSpace(args["command"][i])
    ensures PrecheckOutcome(root, process, args) == Crash
  {
    DefaultCwdInside(root, process, args);
    OnlySpaceNoWords(args["command"]);
  }

  /** A given timeout never lets the command's result through: whatever the process does, the
      reply is the timeout's `TypeError`, unless the root is missing. */
  lemma GivenTimeoutFails(root: Path, process: Path, fs: Fs, args: ArgMap, run: Run)
    requires PrecheckOutcome(root, process, args).Spawn? && "timeout" in args && IsDir(fs, root)
    ensures TerminalOutcome(root, process, fs, args, run) ==
      Says("Error executing command: unsupported operand type(s) for +: 'float' and 'str'")
  {
    SpawnIff(root, process, args);
  }

  /** A successful run says `(no output)` exactly when its output is only whitespace, and
      otherwise shows the output with the surrounding whitespace removed. */
  lemma FormatSuccess(stdout: string, stderr: string)
    ensures FormatResult(0, stdout, stderr) == "Command executed successfully (no output)" <==>
      forall i :: 0 <= i < |stdout| ==> IsSpace(stdout[i])
    ensures Strip(stdout) != [] ==>
      FormatResult(0, stdout, stderr) == "Command executed successfully:\n" + Strip(stdout) &&
      !IsSpace(Strip(stdout)[0]) && !IsSpace(Strip(stdout)[|Strip(stdout)| - 1])
  {
    StripEmptyIff(stdout);
    if Strip(stdout) != [] {
      var m := "Command executed successfully:\n" + Strip(stdout);
      assert m[29] == ':';
      assert "Command executed successfully (no output)"[29] == ' ';
    }
  }

  /** A failed run shows its error output stripped, never its standard output. */
  lemma FormatFailure(code: int, stdout: string, stderr: string)
    requires code != 0
    ensures FormatResult(code, stdout, stderr) == "Command failed with error:\n" + Strip(stderr)
    ensures FormatResult(code, stdout, stderr) == FormatResult(code, [], stderr)
  {
  }

  // ---------------------------------------------------------------------------------------------
  // The tools as they run against the one filesystem

  /** The machine the tools act on: the sandbox root, the directory the process runs in (which
      relative paths given as `cwd` resolve against) and the filesystem, which the tools change
      in place. */
  class Workspace {
    const root: Path
    const processDir: Path
    var fs: Fs

    ghost predicate Valid()
      reads this
    {
      Tree(fs) && root != [] && ValidPath(root) && ValidPath(processDir)
    }

    constructor (home: Path, processDir: Path, fs: Fs)
      requires ValidPath(home) && ValidPath(processDir) && Tree(fs)
      ensures Valid() && root == ProjectsDir(home) && this.processDir == processDir && this.fs == fs
    {
      root := ProjectsDir(home);
      this.processDir := processDir;
      this.fs := fs;
    }

    /** `os.makedirs(os.path.dirname(t), exist_ok=True)`, then `open(t, "w").write(c)`; the error
        that stops them is returned. */
    method Store(t: Path, c: string) returns (error: Option<OsError>)
      requires Valid() && ValidPath(t)
      modifies this
      ensures Valid() && Stored(fs, error) == MakeAndWrite(old(fs), t, c)
    {
      var up := Parent(t);
      MakeDirsSpec(fs, up);
      var made := MakeDirs(fs, up);
      if made.Fail? {
        return Some(made.error);
      }
      fs := made.value;
      WriteFileSpec(fs, t, c);
      var written := FileSystem.WriteFile(fs, t, c);
      if written.Fail? {
        return Some(written.error);
      }
      fs := written.value;
      return None;
    }

    /** `create_file` */
    method CreateFile(args: ArgMap) returns (reply: string)
      requires Valid()
      modifies this
      ensures Valid() && Effect(reply, fs) == CreateOutcome(root, old(fs), args)
    {
      var filename := Get(args, "filename", DefaultFilename);
      var target := AbsJoin(root, filename);
      if !CommonPathInside(root, target) {
        return "Access denied: You can only create files inside " + PathText(root);
      }
      var error := Store(target.segs, []);
      if error.Some? {
        reply := "Error: " + ErrorText(error.value);
      } else {
        reply := "File '" + filename + "' created successfully in " + PathText(root);
      }
    }

    /** `write_file` */
    method WriteFile(args: ArgMap) returns (reply: string)
      requires Valid()
      modifies this
      ensures Valid() && Effect(reply, fs) == WriteOutcome(root, old(fs), args)
    {
      if Missing(args, "filepath") {
        return "Error: Filepath required.";
      }
      var filepath := args["filepath"];
      var content := Get(args, "content", "");
      var target := AbsJoin(root, filepath);
      if !PrefixInside(root, target) {
        return "Access denied: You can only write files inside " + PathText(root);
      }
      var error := Store(target.segs, CleanContent(content));
      if error.Some? {
        reply := "Error writing to file: " + ErrorText(error.value);
      } else {
        reply := "Successfully wrote content to '" + filepath + "'";
      }
    }

    /** `safe_delete_file` */
    method DeleteFile(args: ArgMap) returns (reply: string)
      requires Valid()
      modifies this
      ensures Valid() && Effect(reply, fs) == DeleteOutcome(root, old(fs), args)
    {
      if Missing(args, "filepath") {
        return "Error: Filepath required.";
      }
      var filepath := args["filepath"];
      var target := AbsJoin(root, filepath);
      if !PrefixInside(root, target) {
        return "Error: Can only delete files within the Projects directory";
      }
      if !Exists(fs, target.segs) {
        return "Error: File '" + filepath + "' does not exist";
      }
      if !IsFile(fs, target.segs) {
        return "Error: '" + filepath + "' is not a file";
      }
      RemoveSpec(fs, target.segs);
      match Remove(fs, target.segs)
      case Fail(e) =>
        reply := "Error deleting file: " + ErrorText(e);
      case Ok(fs2) =>
        fs := fs2;
        reply := "Successfully deleted file '" + filepath + "'";
    }

    /** `safe_rename_file` */
    method SafeRenameFile(oldPath: string, newPath: string) returns (reply: string)
      requires Valid()
      modifies this
      ensures Valid() && Effect(reply, fs) == SafeRenameOutcome(root, old(fs), oldPath, newPath)
    {
      var src := AbsJoin(root, oldPath);
      var dst := AbsJoin(root, newPath);
      if !(PrefixInside(root, src) && PrefixInside(root, dst)) {
        return "Error: Can only rename files within the Projects directory";
      }
      var moved := Rename(fs, src.segs, dst.segs);
      if moved.Fail? {
        return "Error renaming file: " + ErrorText(moved.error);
      }
      RenameMoves(fs, src.segs, dst.segs);
      fs := moved.value;
      reply := "Successfully renamed '" + oldPath + "' to '" + newPath + "'";
    }

    /** `execute_rename_command` */
    method ExecuteRenameCommand(args: ArgMap) returns (reply: string)
      requires Valid()
      modifies this
      ensures Valid() && Effect(reply, fs) == RenameCommandOutcome(root, old(fs), args)
    {
      if Missing(args, "old_name") || Missing(args, "new_name") {
        return "Error: Both old_name and new_name are required";
      }
      var oldName := args["old_name"];
      var newName := args["new_name"];
      var oldPath := Joined(PathText(root), oldName);
      var newPath := Joined(PathText(root), newName);
      if !(PrefixInside(root, Collapse(oldPath)) && PrefixInside(root, Collapse(newPath))) {
        return "Error: Can only rename files within the Projects directory";
      }
      if !RawExists(fs, oldPath) {
        return "Error: Source file '" + oldName + "' does not exist";
      }
      var moved := RawRename(fs, oldPath, newPath);
      if moved.Fail? {
        return "Error renaming file: " + ErrorText(moved.error);
      }
      RawRenameMoves(fs, oldPath, newPath);
      fs := moved.value;
      reply := "Successfully renamed '" + oldName + "' to '" + newName + "'";
    }

    /** One pass of the loop of `rename_files_in_directory` over the listed `filename`, with the
        lines reported so far; the error of a failing rename is returned. */
    method RenameOne(dir: Path, suffix: string, filename: string, lines: seq<string>)
        returns (lines': seq<string>, failure: Option<OsError>)
      requires Valid()
      modifies this
      ensures Valid() && Bulk(fs, lines', failure) == BulkStep(dir, suffix, Bulk(old(fs), lines, None), filename)
    {
      lines', failure := lines, None;
      // `os.path.join(directory, filename)` names the entry `dir + [filename]`
      if IsFile(fs, dir + [filename]) {
        var (name, ext) := SplitExt(filename);
        if !EndsWith(name, suffix) {
          var newName := name + suffix + ext;
          var src, dst := Joined(PathText(dir), filename), Joined(PathText(dir), newName);
          match RawRename(fs, src, dst)
          case Fail(e) =>
            failure := Some(e);
          case Ok(fs2) =>
            RawRenameMoves(fs, src, dst);
            fs := fs2;
            lines' := lines + ["Renamed '" + filename + "' to '" + newName + "'"];
        }
      }
    }

    /** The loop of `rename_files_in_directory` over the names `order`: the first failing rename
        ends it with the renames before it kept. */
    method RenameListed(dir: Path, suffix: string, order: seq<string>) returns (reply: string)
      requires Valid()
      modifies this
      ensures Valid()
      ensures var st := BulkRun(dir, suffix, Bulk(old(fs), [], None), order);
        reply == BulkReply(st) && fs == st.fs
    {
      var start := Bulk(fs, [], None);
      var lines: seq<string> := [];
      var i := 0;
      while i < |order|
        invariant 0 <= i <= |order| && Valid()
        invariant BulkRun(dir, suffix, start, order[..i]) == Bulk(fs, lines, None)
      {
        assert order[..i + 1][..i] == order[..i];
        var failure;
        lines, failure := RenameOne(dir, suffix, order[i], lines);
        if failure.Some? {
          BulkStuck(dir, suffix, start, order, i + 1);
          return "Error renaming files: " + ErrorText(failure.value);
        }
        i := i + 1;
      }
      assert order[..|order|] == order;
      ghost var st := BulkRun(dir, suffix, start, order);
      assert st.fs == fs && st.lines == lines && st.failure == None;
      if lines != [] {
        reply := JoinWith(lines, "\n");
      } else {
        reply := "No files were renamed";
      }
    }

    /** `rename_files_in_directory(dir, suffix)`: the names are visited in the order the listing
        gives. */
    method RenameFilesInDirectory(dir: Path, suffix: string) returns (reply: string)
      requires Valid()
      modifies this
      ensures Valid()
      ensures exists order ::
        IsListing(order, Entries(old(fs), dir)) && Effect(reply, fs) == BulkOutcome(dir, old(fs), suffix, order)
    {
      var listed := ListDir(fs, dir);
      if listed.Fail? {
        NonDirHasNoEntries(fs, dir);
        assert IsListing([], Entries(fs, dir));
        return "Error renaming files: " + ErrorText(listed.error);
      }
      var order := ListingOf(listed.value);
      reply := RenameListed(dir, suffix, order);
      assert Effect(reply, fs) == BulkOutcome(dir, old(fs), suffix, order);
    }

    /** `list_files`, with the names in the order the listing gives. */
    method ListFiles() returns (reply: Reply)
      requires Valid()
      ensures exists order :: IsListing(order, Entries(fs, root)) && reply == ListFilesReply(root, fs, order)
    {
      var listed := ListDir(fs, root);
      if listed.Fail? {
        NonDirHasNoEntries(fs, root);
        assert IsListing([], Entries(fs, root));
        if listed.error == NoSuchFile {
          return Says("Error: Projects directory not found.");
        }
        return Raises("NotADirectoryError: " + ErrorText(listed.error));
      }
      var order := ListingOf(listed.value);
      var joined := JoinWith(order, "\n");
      reply := if joined == [] then Says("No files found.") else Says(joined);
    }

    /** `execute_terminal_command`, with `run` how the started process ends and `left` the
        filesystem it leaves behind. The filesystem changes only when a process is started:
        what the command does to it is not modelled beyond that. */
    method ExecuteTerminalCommand(args: ArgMap, run: Run, left: Fs) returns (reply: Reply)
      requires Valid() && Tree(left)
      modifies this
      ensures Valid()
      ensures reply == TerminalOutcome(root, processDir, old(fs), args, run)
      ensures fs == if Starts(root, processDir, old(fs), args) then left else old(fs)
    {
      var verdict := Precheck(root, processDir, args);
      assert TerminalOutcome(root, processDir, fs, args, run) == VerdictReply(root, fs, verdict, run);
      var starts := verdict.Spawn? && IsDir(fs, root);
      assert starts == Starts(root, processDir, fs, args);
      match verdict
      case Refuse(message) =>
        reply := Says(message);
      case Crash =>
        reply := Raises("IndexError: list index out of range");
      case Spawn(_, timeout) =>
        if !IsDir(fs, root) {
          reply := Says("Error executing command: " + ErrorText(SpawnError(fs, root)));
        } else if timeout.GivenTimeout? {
          reply := Says("Error executing command: unsupported operand type(s) for +: 'float' and 'str'");
        } else if run.TimedOut? {
          reply := Says("Command timed out after 30 seconds");
        } else {
          reply := Says(FormatResult(run.code, run.stdout, run.stderr));
        }
      if starts {
        fs := left;
      }
    }
  }
}
