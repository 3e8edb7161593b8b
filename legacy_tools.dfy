/** The older tool module `tools.py`. Its `parse_input_string`, `clean_content`, `write_file`,
    `list_files` and `file_exists` are the same code as in `app/tools/file_tools.py` and are
    modelled once, in `ArgParser`, `Content` and `FileTools`. What differs is its fixed root,
    `create_file`, which checks with `startswith` instead of `commonpath`, and `read_file`, which
    also answers a missing target with its access error. */
module LegacyTools {
  import opened Wrappers
  import opened Text
  import opened ArgParser
  import opened Content
  import opened PathGuard
  import opened FileSystem
  import opened FileTools

  /** The home directory written into `PROJECTS_DIR`. */
  const LegacyHome: Path := ["Users", "user"]

  /** `PROJECTS_DIR` of `tools.py`, as a normalised path. */
  const LegacyRoot: Path := ProjectsDir(LegacyHome)

  lemma LegacyRootValid()
    ensures ValidPath(LegacyRoot) && |LegacyRoot| >= 2 && LegacyRoot[|LegacyRoot| - 2] != "etc"
  {
    assert LegacyRoot == ["Users", "user", "Desktop", "Ai Stuff", "AgenticSystem", "Projects"];
    assert LegacyRoot[4] == "AgenticSystem";
  }

  /** The root prints as the text the module spells out, segment by segment. */
  lemma LegacyRootText()
    ensures PathText(LegacyRoot) ==
      "/" + "Users" + "/" + "user" + "/" + "Desktop" + "/" + "Ai Stuff" + "/" + "AgenticSystem" + "/" + "Projects"
  {
    var segs: Path := ["Users", "user", "Desktop", "Ai Stuff", "AgenticSystem", "Projects"];
    assert LegacyRoot == segs;
    assert segs[1..][1..][1..][1..][1..][1..] == [];
  }

  /** `create_file` of `tools.py`: like the newer one, but the target is accepted by the
      `startswith` check. */
  function LegacyCreateOutcome(root: Path, fs: Fs, args: ArgMap): Effect
    requires Tree(fs)
  {
    var filename := Get(args, "filename", DefaultFilename);
    var target := AbsJoin(root, filename);
    if !PrefixInside(root, target) then
      Effect("Access denied: You can only create files inside " + PathText(root), fs)
    else
      var st := MakeAndWrite(fs, target.segs, []);
      match st.error
      case Some(e) => Effect("Error: " + ErrorText(e), st.fs)
      case None => Effect("File '" + filename + "' created successfully in " + PathText(root), st.fs)
  }

  /** A target outside the root by `startswith` is refused and nothing changes; inside, the file
      is created empty (replacing any content) when it is not a directory and nothing above it
      is a file, and otherwise the error is reported and nothing changes. */
  lemma LegacyCreateOutcomeSpec(root: Path, fs: Fs, args: ArgMap)
    requires Tree(fs)
    ensures var filename := Get(args, "filename", DefaultFilename);
      var target := AbsJoin(root, filename);
      var t := target.segs;
      var r := LegacyCreateOutcome(root, fs, args);
      (!PrefixInside(root, target) ==>
         r == Effect("Access denied: You can only create files inside " + PathText(root), fs)) &&
      (PrefixInside(root, target) && !IsDir(fs, t) && !BelowFile(fs, t) ==>
         r.reply == "File '" + filename + "' created successfully in " + PathText(root) &&
         Stores(fs, r.fs, t, [])) &&
      (PrefixInside(root, target) && (IsDir(fs, t) || BelowFile(fs, t)) ==>
         r == Effect("Error: " + ErrorText(StoreError(fs, t)), fs))
  {
    var target := AbsJoin(root, Get(args, "filename", DefaultFilename));
    MakeAndWriteSpec(fs, target.segs, []);
  }

  /** `create_file` of `tools.py`, carried out on the workspace. */
  method LegacyCreateFile(ws: Workspace, args: ArgMap) returns (reply: string)
    requires ws.Valid()
    modifies ws
    ensures ws.Valid() && Effect(reply, ws.fs) == LegacyCreateOutcome(ws.root, old(ws.fs), args)
  {
    var filename := Get(args, "filename", DefaultFilename);
    var target := AbsJoin(ws.root, filename);
    if !PrefixInside(ws.root, target) {
      return "Access denied: You can only create files inside " + PathText(ws.root);
    }
    var error := ws.Store(target.segs, []);
    if error.Some? {
      reply := "Error: " + ErrorText(error.value);
    } else {
      reply := "File '" + filename + "' created successfully in " + PathText(ws.root);
    }
  }

  /** The older `create_file` accepts the sibling of the root that the newer one refuses, and
      creates the file there, outside the root. */
  lemma LegacyCreateAcceptsSibling(root: Path, fs: Fs, extra: string, name: string)
    requires Tree(fs) && root != [] && ValidPath(root)
    requires extra != [] && '/' !in extra && ValidSegment(name)
    requires var t := Parent(root) + [root[|root| - 1] + extra, name];
      !IsDir(fs, t) && !BelowFile(fs, t)
    ensures var p := JoinWith(["..", root[|root| - 1] + extra, name], "/");
      var t := Parent(root) + [root[|root| - 1] + extra, name];
      var args := map["filename" := p];
      !Under(t, root) && Stores(fs, LegacyCreateOutcome(root, fs, args).fs, t, []) &&
      CreateOutcome(root, fs, args).fs == fs
  {
    var last := root[|root| - 1];
    var p := JoinWith(["..", last + extra, name], "/");
    SiblingWriteEscapes(root, fs, extra, name, []);
    var args := map["filename" := p];
    assert Get(args, "filename", DefaultFilename) == p;
    LegacyCreateOutcomeSpec(root, fs, args);
    SiblingSlipsPastPrefix(root, extra, name);
  }

  /** `read_file` of `tools.py`: a missing target gets the same answer as one outside the root. */
  function LegacyReadOutcome(root: Path, fs: Fs, args: ArgMap): string {
    if Missing(args, "filepath") then "Error: Filepath required."
    else
      var target := AbsJoin(root, args["filepath"]);
      if !PrefixInside(root, target) || !Exists(fs, target.segs) then
        "Error: File not found or access denied. Files must be inside " + PathText(root)
      else
        match ReadFile(fs, target.segs)
        case Ok(text) => text
        case Fail(e) => "Error reading file: " + ErrorText(e)
  }

  /** Reading refuses a missing path; a target outside the root and a target that does not exist
      get one and the same error; a file inside is returned as text mode reads it, and a
      directory inside is reported as such. */
  lemma LegacyReadOutcomeSpec(root: Path, fs: Fs, args: ArgMap)
    requires Tree(fs)
    ensures var r := LegacyReadOutcome(root, fs, args);
      (Missing(args, "filepath") ==> r == "Error: Filepath required.") &&
      (!Missing(args, "filepath") ==>
         var target := AbsJoin(root, args["filepath"]);
         var t := target.segs;
         (!PrefixInside(root, target) || !Exists(fs, t) ==>
            r == "Error: File not found or access denied. Files must be inside " + PathText(root)) &&
         (PrefixInside(root, target) && IsFile(fs, t) ==> r == TextModeRead(fs[t].content)) &&
         (PrefixInside(root, target) && IsDir(fs, t) ==>
            r == "Error reading file: " + ErrorText(IsADirectory)))
  {
    if !Missing(args, "filepath") {
      ReadFileSpec(fs, AbsJoin(root, args["filepath"]).segs);
    }
  }

  /** The older read differs from the newer one only on targets that are inside by `startswith`
      and missing, where the newer one reports the error of `open`. */
  lemma LegacyReadAgrees(root: Path, fs: Fs, args: ArgMap)
    requires Tree(fs)
    requires !Missing(args, "filepath") ==>
      var target := AbsJoin(root, args["filepath"]);
      !PrefixInside(root, target) || Exists(fs, target.segs)
    ensures LegacyReadOutcome(root, fs, args) == ReadOutcome(root, fs, args)
  {
  }

  /** The round trip through the older tools: `write_file` (shared with the newer module) and
      then `read_file` give back the cleaned content, as text mode reads it. */
  lemma LegacyWriteThenRead(root: Path, fs: Fs, args: ArgMap)
    requires Tree(fs) && !Missing(args, "filepath")
    requires var target := AbsJoin(root, args["filepath"]);
      PrefixInside(root, target) && !IsDir(fs, target.segs) && !BelowFile(fs, target.segs)
    ensures var c := CleanContent(Get(args, "content", ""));
      var after := WriteOutcome(root, fs, args).fs;
      LegacyReadOutcome(root, after, map["filepath" := args["filepath"]]) == TextModeRead(c)
  {
    WriteThenRead(root, fs, args);
    WriteOutcomeSpec(root, fs, args);
    var after := WriteOutcome(root, fs, args).fs;
    var target := AbsJoin(root, args["filepath"]);
    assert Exists(after, target.segs);
    LegacyReadAgrees(root, after, map["filepath" := args["filepath"]]);
  }
}
