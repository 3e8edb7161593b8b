/** `app/tools/kernel.py`: the table of tools the agent may call. Every entry parses its input
    with `parse_input_string` and hands the result to one tool as keyword arguments; the shell
    tool is put behind `is_command_safe` first, and the bulk rename always runs on the root. */
module Kernel {
  import opened Text
  import opened ArgParser
  import opened CommandPolicy
  import opened PathGuard
  import opened FileSystem
  import opened FileTools

  /** The tools of the table, Search Online aside. */
  datatype ToolName =
    | DeleteFile | RenameFile | RenameFiles | ExecuteTerminalCommand | CreateFile
    | WriteFile | ReadFile | ListFiles | CheckFileExists | ShowCurrentDirectory
  {
    /** The tools whose answer depends on the order of a directory listing. */
    predicate Lists() {
      this == RenameFiles || this == ListFiles
    }

    /** The tools that may change the filesystem. */
    predicate Changes() {
      || this == DeleteFile || this == RenameFile || this == RenameFiles || this == CreateFile
      || this == WriteFile || this == ExecuteTerminalCommand
    }
  }

  /** The name each tool is registered under. */
  function NameOf(tool: ToolName): string {
    match tool
    case DeleteFile => "Delete File"
    case RenameFile => "Rename File"
    case RenameFiles => "Rename Files"
    case ExecuteTerminalCommand => "Execute Terminal Command"
    case CreateFile => "Create File"
    case WriteFile => "Write File"
    case ReadFile => "Read File"
    case ListFiles => "List Files"
    case CheckFileExists => "File Exists"
    case ShowCurrentDirectory => "Show Current Directory"
  }

  const Rejected := "Command rejected for security reasons"
  const DefaultSuffix := "_one"

  /** The keyword arguments a tool receives: a dictionary as it is, text as it parses. */
  function ArgsOf(input: ToolInput): ArgMap {
    match input
    case Mapping(args) => args
    case Raw(text) => Parsed(text)
  }

  /** The Execute Terminal Command entry: the gate on the parsed `command` (empty when absent),
      then the tool. */
  function GatedTerminal(root: Path, process: Path, fs: Fs, args: ArgMap, run: Run): Reply {
    if IsCommandSafe(Get(args, "command", "")) then TerminalOutcome(root, process, fs, args, run)
    else Says(Rejected)
  }

  /** One call through the table: parse the input, then run the tool on the workspace. The
      Rename Files entry works on the root with the parsed `suffix`, `_one` when absent; a shell
      command that is started ends as `run` says and leaves `left` behind; Search Online is not
      modelled. */
  method Invoke(ws: Workspace, tool: ToolName, input: ToolInput, run: Run, left: Fs) returns (reply: Reply)
    requires ws.Valid() && Tree(left)
    modifies ws
    ensures ws.Valid()
    ensures var args := ArgsOf(input);
      (tool == DeleteFile ==> reply.Says? && Effect(reply.text, ws.fs) == DeleteOutcome(ws.root, old(ws.fs), args)) &&
      (tool == RenameFile ==> reply.Says? && Effect(reply.text, ws.fs) == RenameCommandOutcome(ws.root, old(ws.fs), args)) &&
      (tool == CreateFile ==> reply.Says? && Effect(reply.text, ws.fs) == CreateOutcome(ws.root, old(ws.fs), args)) &&
      (tool == WriteFile ==> reply.Says? && Effect(reply.text, ws.fs) == WriteOutcome(ws.root, old(ws.fs), args))
    ensures tool == RenameFiles ==> reply.Says? && exists order :: (IsListing(order, Entries(old(ws.fs), ws.root)) &&
      Effect(reply.text, ws.fs) == BulkOutcome(ws.root, old(ws.fs), Get(ArgsOf(input), "suffix", DefaultSuffix), order))
    ensures !tool.Changes() ==> ws.fs == old(ws.fs)
    ensures var args := ArgsOf(input);
      (tool == ExecuteTerminalCommand ==>
         reply == GatedTerminal(ws.root, ws.processDir, old(ws.fs), args, run) &&
         ws.fs == if IsCommandSafe(Get(args, "command", "")) && Starts(ws.root, ws.processDir, old(ws.fs), args)
                  then left else old(ws.fs)) &&
      (tool == ReadFile ==> reply == Says(ReadOutcome(ws.root, ws.fs, args))) &&
      (tool == CheckFileExists ==> reply == Says(ExistsOutcome(ws.root, ws.fs, args))) &&
      (tool == ShowCurrentDirectory ==> reply == Says(PathText(ws.root)))
    ensures tool == ListFiles ==>
      exists order :: (IsListing(order, Entries(ws.fs, ws.root)) && reply == ListFilesReply(ws.root, ws.fs, order))
  {
    var args := ParseInput(input);
    assert args == ArgsOf(input);
    match tool
    case DeleteFile =>
      var text := ws.DeleteFile(args);
      reply := Says(text);
    case RenameFile =>
      var text := ws.ExecuteRenameCommand(args);
      reply := Says(text);
    case RenameFiles =>
      var text := ws.RenameFilesInDirectory(ws.root, Get(args, "suffix", DefaultSuffix));
      reply := Says(text);
    case ExecuteTerminalCommand =>
      if IsCommandSafe(Get(args, "command", "")) {
        reply := ws.ExecuteTerminalCommand(args, run, left);
      } else {
        reply := Says(Rejected);
      }
    case CreateFile =>
      var text := ws.CreateFile(args);
      reply := Says(text);
    case WriteFile =>
      var text := ws.WriteFile(args);
      reply := Says(text);
    case ReadFile =>
      reply := Says(ReadOutcome(ws.root, ws.fs, args));
    case ListFiles =>
      reply := ws.ListFiles();
    case CheckFileExists =>
      reply := Says(ExistsOutcome(ws.root, ws.fs, args));
    case ShowCurrentDirectory =>
      reply := Says(PathText(ws.root));
  }

  /** The registered names are pairwise distinct, so a name picks out one tool. */
  lemma NamesDistinct(a: ToolName, b: ToolName)
    ensures NameOf(a) == NameOf(b) ==> a == b
  {
  }

  /** The empty command line invokes no allowed command. */
  lemma EmptyCommandUnsafe()
    ensures !IsCommandSafe("")
  {
    assert Lower("") == "";
    forall i | 0 <= i < |AllowedCommands|
      ensures !Invokes("", AllowedCommands[i])
    {
      AllowedAreWords(i);
    }
  }

  /** A command line the gate turns down is never checked or started, and one it admits goes to
      the tool unchanged. */
  lemma GateDecides(root: Path, process: Path, fs: Fs, args: ArgMap, run: Run)
    ensures !IsCommandSafe(Get(args, "command", "")) ==> GatedTerminal(root, process, fs, args, run) == Says(Rejected)
    ensures IsCommandSafe(Get(args, "command", "")) ==>
      GatedTerminal(root, process, fs, args, run) == TerminalOutcome(root, process, fs, args, run)
  {
  }

  /** Without a command, or with an empty one, the gate sees the empty line and rejects it; the
      tool's own `Command required.` answer is never reached through the table. */
  lemma MissingCommandRejected(root: Path, process: Path, fs: Fs, args: ArgMap, run: Run)
    requires Missing(args, "command")
    ensures GatedTerminal(root, process, fs, args, run) == Says(Rejected)
  {
    EmptyCommandUnsafe();
    assert Get(args, "command", "") == "";
  }

  /** Through the table the whitespace-only command cannot crash the tool: whatever the gate lets
      by has a first word. */
  lemma GatePreventsCrash(root: Path, process: Path, args: ArgMap)
    requires IsCommandSafe(Get(args, "command", ""))
    ensures PrecheckOutcome(root, process, args) != Crash
  {
    EmptyCommandUnsafe();
    assert !Missing(args, "command");
    SafeLeadingWord(args["command"]);
    CrashOnlyBlank(root, process, args);
  }

  /** The gate sees through case: it judges `MV …` as it judges `mv …`. */
  lemma UpperMoveJudgedAlike(rest: string)
    ensures IsCommandSafe("MV " + rest) == IsCommandSafe("mv " + rest)
  {
    var c := "MV " + rest;
    assert Lower(c) == Lower("mv " + rest) by {
      LowerAppend("MV ", rest);
      LowerAppend("mv ", rest);
      assert Lower("MV ") == "mv " && Lower("mv ") == "mv ";
    }
    GateIgnoresCase(c);
    GateIgnoresCase("mv " + rest);
  }

  /** `MV …` has `MV` as its first word. */
  lemma UpperMoveFirstWord(rest: string)
    ensures Words("MV " + rest) != [] && Words("MV " + rest)[0] == "MV"
  {
    var c := "MV " + rest;
    assert Invokes(c, "MV") by {
      assert c[..3] == "MV ";
    }
    InvokedWordFirst(c, "MV");
  }

  /** The file commands are spelled in lower case. */
  lemma UpperMoveNotFileCommand()
    ensures "MV" !in FileCommands
  {
    forall i | 0 <= i < |FileCommands|
      ensures FileCommands[i] != "MV"
    {
      assert FileCommands[i][0] != 'M';
    }
  }

  /** The arguments of the line `MV …` meet the conditions of `OtherCommandsUnchecked`. */
  lemma UpperMoveArgs(rest: string)
    ensures var args := map["command" := "MV " + rest];
      "cwd" !in args && "timeout" !in args && !Missing(args, "command") &&
      Words(args["command"]) != [] && Words(args["command"])[0] !in FileCommands
  {
    var args := map["command" := "MV " + rest];
    UpperMoveFirstWord(rest);
    UpperMoveNotFileCommand();
    assert args["command"] == "MV " + rest;
    assert |"cwd"| != |"command"| && "timeout"[0] != "command"[0];
  }

  /** The argument check does not see through case: `MV` with any arguments is started without
      its arguments being checked, and by `UpperMoveJudgedAlike` it passes the gate whenever the
      same line with `mv` does. */
  lemma UpperCaseMoveUnchecked(root: Path, process: Path, rest: string)
    requires root != [] && ValidPath(root)
    ensures var args := map["command" := "MV " + rest];
      PrecheckOutcome(root, process, args) == Spawn("MV " + rest, DefaultTimeout)
  {
    var args := map["command" := "MV " + rest];
    UpperMoveArgs(rest);
    OtherCommandsUnchecked(root, process, args);
  }

  /** Text without `=` parses to the single key `input`, which no tool reads. So Create File
      writes `new_file.txt`; Write File, Read File and Delete File answer that a file path is
      required; Rename File asks for both names; the shell tool is rejected; and Rename Files
      uses the suffix `_one`. */
  lemma PlainTextDefaults(root: Path, fs: Fs, text: string)
    requires Tree(fs) && '=' !in text
    ensures var args := ArgsOf(Raw(text));
      CreateOutcome(root, fs, args) == CreateOutcome(root, fs, map["filename" := DefaultFilename]) &&
      WriteOutcome(root, fs, args) == Effect("Error: Filepath required.", fs) &&
      ReadOutcome(root, fs, args) == "Error: Filepath required." &&
      DeleteOutcome(root, fs, args) == Effect("Error: Filepath required.", fs) &&
      RenameCommandOutcome(root, fs, args) == Effect("Error: Both old_name and new_name are required", fs) &&
      Missing(args, "command") &&
      Get(args, "suffix", DefaultSuffix) == "_one"
  {
    var args := ArgsOf(Raw(text));
    assert args == map["input" := text];
    var named := map["filename" := DefaultFilename];
    assert Get(args, "filename", DefaultFilename) == Get(named, "filename", DefaultFilename);
  }
}
