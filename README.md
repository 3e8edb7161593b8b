# The sandboxed action gateway of Agentic-Syst, in Dafny

Agentic-Syst is a chat agent that may act on the machine it runs on only through a fixed table of
tools. This project models that gateway and proves what it does and does not guarantee:

- **The table** (`app/tools/kernel.py`): eleven tools, ten of them modelled, each fed the parsed
  tool input; Search Online, which takes the raw input, is left out. The shell tool
  is put behind the command gate. The bulk rename always runs on the projects root. Module
  `Kernel` holds it; `Kernel.Invoke` is one call through the table.
- **The file tools** (`app/tools/file_tools.py`): create, write, read, delete, rename one file,
  rename all files, list, check existence, show the root. Each is confined to the projects root
  by one of two checks: `commonpath`, or a textual `startswith` on normalised paths. Module
  `FileTools` gives each tool as a pure outcome (reply and new filesystem), proves an outcome
  lemma for every branch of the source, and carries each one out in a method of the class
  `Workspace`, which owns the filesystem.
- **The shell tool and its gate**: `execute_terminal_command` checks its arguments, then starts
  a shell in the root. The gate `is_command_safe` uses an allow-list of leading words, a
  deny-list of patterns, and a special rule for `rm`. They live in `FileTools` and
  `CommandPolicy`.
- **The input parser** `parse_input_string`: a quote-aware split on commas, then `key=value`
  pairs, where later keys win and one layer of quotes is dropped from values. It is in
  `ArgParser`, with both loops written as methods.
- **`clean_content`**: drops the outer quotes and converts literal escapes. It is in `Content`.
- **The older `tools.py`**: a fixed root, a `startswith` check in `create_file`, and a `read_file`
  that hides missing files. It is in `LegacyTools`.
- **The streaming callback handler** of `app/controller/agent.py`: a class with one flag. It turns
  the agent's callbacks into `agent_update` events and streams tokens only while no tool has been
  used. It is in `Agent`.

Python's path and OS semantics are modelled in their own modules:

- `PathGuard`: `normpath`, `abspath(join(...))`, `splitext`, and both containment checks.
- `FileSystem`: a tree of directories and files with `makedirs`, `open` for writing and reading
  (universal newlines), `remove`, `listdir`, and a POSIX `rename`. It also models the raw-path
  lookup that `os.path.exists` and `os.rename` make on unnormalised paths.
- `Text`: `str` helpers.

What the proofs establish, beyond each tool's branch-by-branch outcome:

- The two containment checks differ:
  - `../../etc/passwd` is refused by every tool that checks (`FileTools.EscapeRefused`).
  - A sibling directory whose name extends the root's, such as `../Projects-evil/x`, passes
    `startswith`. So `write_file` stores the file outside the root, while `create_file` refuses
    it (`FileTools.SiblingWriteEscapes`). The older `create_file` accepts it too
    (`LegacyTools.LegacyCreateAcceptsSibling`).
  - A target with exactly two leading slashes passes `commonpath` but not `startswith`
    (`PathGuard.DoubleSlashSplitsChecks`).
- `file_exists` checks nothing and answers for `/` (`FileTools.ExistsIgnoresRoot`).
- Through the table, a missing or blank command is rejected by the gate before the tool could
  crash on it (`Kernel.MissingCommandRejected`, `Kernel.GatePreventsCrash`).
- The gate lower-cases the command line, but the tool's argument check compares words exactly as
  spelt. So `MV <anything>` passes the gate exactly when `mv <anything>` does, and then starts
  without its arguments being checked (`Kernel.UpperMoveJudgedAlike`,
  `Kernel.UpperCaseMoveUnchecked`).
- A `timeout` given through the parser is text. Waiting with it raises a `TypeError`, so no
  result ever gets through (`FileTools.GivenTimeoutFails`).
- The handler's flag holds exactly when a tool started since the last finish. The final
  event's `response_type` is `direct` exactly when the flag is clear, that is when no tool
  started since the last finish (`Agent.FlagTracksToolStarts`, `Agent.DirectIffNoTool`).

Inputs from the outside world are parameters of the model:

- The home directory (`Workspace.constructor`) and the directory the process runs in.
- The filesystem.
- The order `os.listdir` returns names in: any order, picked by `FileTools.ListingOf`.
- How a started process ends (`FileTools.Run`).

## Model

| member | source | states |
|---|---|---|
| FileTools.Workspace.constructor | app/tools/file_tools.py:5 | the root is `PROJECTS_DIR`, `~/Desktop/Ai Stuff/AgenticSystem/Projects` below the given home; the filesystem and the process directory are the given ones, and the workspace is well formed |
| Content.CleanContent | app/tools/file_tools.py:7-26 | `clean_content` on a string; the `Content` lemmas below state it |
| Content.CleanWithoutBackslash | app/tools/file_tools.py:12-18 | text without a backslash only loses its outer matching quotes |
| Content.OneQuoteLayer | app/tools/file_tools.py:12-15 | exactly one layer of quotes is removed: `"t"` gives `t`, and `""t""` gives `"t"` |
| Content.NoEscapedNewlineAfterFirstPass | app/tools/file_tools.py:17-18 | after the newline pass no literal backslash-n is left |
| Content.NoEscapedNewlineOutsideMarkup | app/tools/file_tools.py:17-24 | outside markup the cleaned text holds no literal backslash-n |
| Content.TabsKeptOutsideMarkup | app/tools/file_tools.py:20-24 | outside markup a literal backslash-t of the unquoted text survives cleaning |
| Content.ReturnsKeptOutsideMarkup | app/tools/file_tools.py:20-24 | outside markup a literal backslash-r of the unquoted text survives cleaning |
| Content.TabsCountedOutsideMarkup | app/tools/file_tools.py:17-24 | outside markup the cleaned text has exactly as many literal backslash-t as the unquoted text |
| Content.ReturnsCountedOutsideMarkup | app/tools/file_tools.py:17-24 | outside markup the cleaned text has exactly as many literal backslash-r as the unquoted text |
| Content.MarkupCaseSensitive | app/tools/file_tools.py:21 | the markup test accepts `<html…` and refuses `<HTML…` |
| Content.MarkupAfterWhitespace | app/tools/file_tools.py:21 | the markup test looks past leading whitespace |
| Content.UpperCaseMarkupKeepsTabs | app/tools/file_tools.py:21-23 | upper-case markup keeps its literal backslash-t |
| Content.MarkupCanRejoinNewline | app/tools/file_tools.py:17-23 | in markup, deleting backslash-r can form a new literal backslash-n after the newline pass has run |
| Content.NoEscapedTabAfterTabPass | app/tools/file_tools.py:17-23 | after the markup tab pass no literal backslash-t is left |
| Content.MarkupCanRejoinTab | app/tools/file_tools.py:17-24 | in markup, deleting backslash-r can form a new literal backslash-t after the tab pass has run |
| FileTools.MakeAndWriteSpec | app/tools/file_tools.py:37-40 | `makedirs` then `open(...).write(c)` succeed exactly when the target is not a directory and nothing above it is a file; on success the file holds `c` and only directories were added; on failure nothing changed, and the error is the one raised |
| FileTools.CreateOutcome | app/tools/file_tools.py:28-45 | the reply and the new filesystem of `create_file`; `CreateOutcomeSpec` states each branch |
| FileTools.CreateOutcomeSpec | app/tools/file_tools.py:28-45 | every branch of `create_file`: refused outside by `commonpath` with nothing changed, an empty file on success, the error otherwise |
| FileTools.Workspace.CreateFile | app/tools/file_tools.py:28-45 | the reply and the new filesystem are `CreateOutcome` of the old filesystem |
| FileTools.ListFilesSpec | app/tools/file_tools.py:47-51 | an empty root lists as `No files found.`, any other as its names joined by newlines; a missing root has its own message; a root that is or lies below a file raises |
| FileTools.ListFilesReply | app/tools/file_tools.py:47-51 | the reply of `list_files` for one listing order; `ListFilesSpec` states each case |
| FileTools.Workspace.ListFiles | app/tools/file_tools.py:47-51 | the reply is `ListFilesReply` for some order of the root's entries, each listed once |
| FileTools.ListingOf | app/tools/file_tools.py:49 | the returned names are the directory's entries, each exactly once |
| FileTools.ReadOutcome | app/tools/file_tools.py:53-76 | the reply of `read_file`; `ReadOutcomeSpec` states each branch |
| FileTools.ReadOutcomeSpec | app/tools/file_tools.py:53-76 | every branch of `read_file`: missing path, outside by `startswith`, a file read in text mode, and the error `open` raises for anything else |
| FileTools.WriteOutcome | app/tools/file_tools.py:78-107 | the reply and the new filesystem of `write_file`; `WriteOutcomeSpec` states each branch |
| FileTools.WriteOutcomeSpec | app/tools/file_tools.py:78-107 | every branch of `write_file`: missing path, outside by `startswith`, the cleaned content stored on success, the error with nothing changed otherwise |
| FileTools.Workspace.WriteFile | app/tools/file_tools.py:78-107 | the reply and the new filesystem are `WriteOutcome` of the old filesystem |
| FileTools.WriteThenRead | app/tools/file_tools.py:53-107 | after an accepted write, reading the same path returns the cleaned content as text mode reads it, and exactly the cleaned content when it has no carriage return |
| FileTools.Workspace.Store | app/tools/file_tools.py:99-104 | the store is `makedirs` followed by the write, and its error is returned |
| Kernel.Invoke | app/tools/kernel.py:14-64 | every table entry: the parsed input goes to its tool; the shell tool runs only behind the gate; the bulk rename works on the root with suffix `_one` by default; the shell tool changes the filesystem only when a process starts, and then to what the process leaves behind; tools that only read leave the filesystem alone; Show Current Directory answers the root |
| ArgParser.Parsed | app/tools/file_tools.py:121-165 | the dictionary parsed from text; `ParsedKeys` and `ParsedWithoutEquals` state it |
| ArgParser.ParseInput | app/tools/file_tools.py:121-165 | a dictionary is passed through unchanged; text without `=` gives `{"input": text}`; other text gives the pairs of its segments |
| ArgParser.Segments | app/tools/file_tools.py:131-151 | the quote-aware split on commas; `Cuts` and `ScanPieces` state where it cuts |
| ArgParser.SplitSegments | app/tools/file_tools.py:131-151 | the character loop produces exactly `Segments(s)` |
| ArgParser.Cuts | app/tools/file_tools.py:137-147 | the split positions are exactly the commas read while no quote is open, in increasing order |
| ArgParser.ScanPieces | app/tools/file_tools.py:137-151 | each segment is the text between consecutive unquoted commas, with nothing else dropped or altered |
| ArgParser.QuoteStaysOpen | app/tools/file_tools.py:138-143 | only the quote character that opened a quote closes it |
| ArgParser.ScanInsideQuote | app/tools/file_tools.py:137-148 | inside an open quote, commas and the other quote character are kept in the segment |
| ArgParser.ScanPlain | app/tools/file_tools.py:137-148 | text without commas or quotes is appended to the current segment |
| ArgParser.QuotedCommaKept | app/tools/file_tools.py:137-151 | `a, b'c'` splits once, after `a`, whatever `c` holds besides the closing quote |
| ArgParser.Collected | app/tools/file_tools.py:153-161 | the dictionary of the pairs; `CollectedKeys` and `CollectedLast` state it |
| ArgParser.CollectPairs | app/tools/file_tools.py:153-161 | the dictionary loop builds `Collected(pairs)` |
| ArgParser.SplitPairOf | app/tools/file_tools.py:155 | `split('=', 1)` splits at the first `=` |
| ArgParser.CollectedKeys | app/tools/file_tools.py:153-161 | a key is present exactly when some segment assigns it |
| ArgParser.CollectedLast | app/tools/file_tools.py:153-161 | a key holds the value of the last segment that assigns it |
| ArgParser.ParsedKeys | app/tools/file_tools.py:121-165 | parsed text has exactly the keys its segments assign |
| ArgParser.ParsedWithoutEquals | app/tools/file_tools.py:128-129 | text without `=` has the single key `input`, holding the whole text |
| ArgParser.BarePair | app/tools/file_tools.py:153-161 | `k=v` with bare words stores `v` under `k` |
| ArgParser.QuotedPairKey | app/tools/file_tools.py:161 | the key of ` k='text'` is stripped to `k` |
| ArgParser.QuotedPairValue | app/tools/file_tools.py:157-160 | the value of ` k='text'` is `text`, without its quotes |
| ArgParser.CollectedTwo | app/tools/file_tools.py:153-161 | of two assignments, the second is applied last |
| ArgParser.ParseTwoPairs | app/tools/file_tools.py:121-165 | `k=v, k2='text'` parses to exactly `{k: v, k2: text}` |
| FileTools.ExistsOutcome | app/tools/file_tools.py:168-174 | a missing path is refused; otherwise the answer is `True` exactly when the normalised target exists, and `False` otherwise |
| FileTools.ExistsIgnoresRoot | app/tools/file_tools.py:168-174 | `file_exists` makes no containment check: `/` always answers `True` |
| FileTools.PrecheckOutcome | app/tools/file_tools.py:176-198 | the verdict of the checks before the process starts; `SpawnIff`, `StrayRefused` and `CrashOnlyBlank` state it |
| FileTools.Precheck | app/tools/file_tools.py:176-198 | the checks made in order, with their loop over the arguments, give `PrecheckOutcome` |
| FileTools.FindFrom | app/tools/file_tools.py:193-198 | the loop over the arguments finds a bad one exactly when one exists |
| FileTools.AnyStray | app/tools/file_tools.py:193-198 | the argument loop reports an argument exactly when one that is not an option lies outside the root |
| FileTools.SpawnIff | app/tools/file_tools.py:176-209 | a process starts exactly when a command is given, the working directory is inside the root, the command has a first word and, for a file command, no argument strays; it starts with the command and the timeout given |
| FileTools.DefaultCwdInside | app/tools/file_tools.py:182-187 | without `cwd`, the working directory check always passes |
| FileTools.StrayRefused | app/tools/file_tools.py:190-198 | a file command with an argument outside the root is refused before anything runs |
| FileTools.OtherCommandsUnchecked | app/tools/file_tools.py:190-191 | a command whose first word is none of `mv`, `cp`, `rm`, `touch` is started with its arguments unchecked |
| FileTools.CrashOnlyBlank | app/tools/file_tools.py:190-191 | only a given command without words crashes the checks |
| FileTools.BlankCommandCrashes | app/tools/file_tools.py:178-191 | a command of only whitespace passes the empty check and crashes on its first word |
| FileTools.GivenTimeoutFails | app/tools/file_tools.py:183-223 | with a `timeout` given as text and the root present, the reply is the `TypeError` of waiting with it, whatever the process does |
| FileTools.VerdictReply | app/tools/file_tools.py:200-223 | the reply once the checks have decided; `GivenTimeoutFails`, `FormatSuccess` and `FormatFailure` state what a started process gives |
| FileTools.FormatResult | app/tools/file_tools.py:213-217 | the reply for a process that ended; `FormatSuccess` and `FormatFailure` state both cases |
| FileTools.FormatSuccess | app/tools/file_tools.py:213-215 | a successful run says `(no output)` exactly when its output is only whitespace, and otherwise shows the output stripped |
| FileTools.FormatFailure | app/tools/file_tools.py:216-217 | a failed run shows its error output stripped and never its standard output |
| FileTools.Workspace.ExecuteTerminalCommand | app/tools/file_tools.py:176-223 | the reply is `TerminalOutcome`: the checks, then a process in the root whatever `cwd` says; the filesystem becomes what the process leaves behind exactly when a process starts, and is unchanged otherwise |
| CommandPolicy.IsCommandSafe | app/tools/file_tools.py:226-264 | safe exactly when the lower-cased line invokes an allowed command, has no forbidden pattern, and is not an `rm ` line with a flag |
| CommandPolicy.ContainsAny | app/tools/file_tools.py:254-262 | true exactly when some pattern occurs in the text |
| CommandPolicy.InvokesAny | app/tools/file_tools.py:258-259 | true exactly when the line is some command alone or that command followed by a space |
| CommandPolicy.RmFlagsReduce | app/tools/file_tools.py:253-255 | the five `rm` flags amount to containing `-r` or `-f` |
| CommandPolicy.GateIgnoresCase | app/tools/file_tools.py:250 | a line and its lower-cased form are judged alike |
| CommandPolicy.FlaggedRmRejected | app/tools/file_tools.py:253-255 | any `rm ` line holding `-r` or `-f` anywhere is refused, `rm my-file` included |
| CommandPolicy.ForbiddenRejected | app/tools/file_tools.py:239-264 | a line with a forbidden pattern anywhere is refused |
| CommandPolicy.SafeLeadingWord | app/tools/file_tools.py:258-264 | what the gate admits has a first word, and lower-cased it is an allowed command |
| CommandPolicy.RmSingleFileAccepted | app/tools/file_tools.py:232-264 | `rm` of a single harmless file name passes the gate |
| CommandPolicy.RmOldAccepted | app/tools/file_tools.py:232-264 | `rm old.txt` passes the gate: the flag rule refuses flags, not `rm` |
| CommandPolicy.RmLineAccepted | app/tools/file_tools.py:232-264 | an `rm ` line of the characters of `rm old.txt` passes the gate |
| CommandPolicy.KelvinMkdirAccepted | app/tools/file_tools.py:250-264 | the Kelvin sign lower-cases to `k`, so `m\u212Adir x` is judged as `mkdir x` and passes |
| CommandPolicy.MkdirLineAccepted | app/tools/file_tools.py:232-264 | a `mkdir ` line of the characters of `mkdir x` passes the gate |
| FileTools.SafeRenameOutcome | app/tools/file_tools.py:267-280 | the reply and the new filesystem of `safe_rename_file`; `SafeRenameOutcomeSpec` states each branch |
| FileTools.SafeRenameOutcomeSpec | app/tools/file_tools.py:267-280 | either path outside by `startswith` is refused with nothing changed; otherwise the outcome is `os.rename`'s, and a success moves the subtree |
| FileTools.Workspace.SafeRenameFile | app/tools/file_tools.py:267-280 | the reply and the new filesystem are `SafeRenameOutcome` of the old filesystem |
| FileTools.RenameMoves | app/tools/file_tools.py:277 | a rename that succeeds keeps the tree well formed, moves the subtree and leaves the rest alone |
| FileTools.BulkStep | app/tools/file_tools.py:290-298 | one pass of the loop keeps the tree well formed; `BulkStepInPlace` and `BulkStepShape` state what it renames and records |
| FileTools.BulkStepInPlace | app/tools/file_tools.py:290-298 | for a suffix without a slash, one pass renames `dir/file` to `dir/stem+suffix+ext` or records the error |
| FileTools.Workspace.RenameOne | app/tools/file_tools.py:290-298 | one pass of the loop is `BulkStep` |
| FileTools.BulkRun | app/tools/file_tools.py:288-302 | the loop over a listing keeps the tree well formed; `BulkStuck`, `BulkNoneRenamed` and `BulkLines` state what it does |
| FileTools.Workspace.RenameListed | app/tools/file_tools.py:288-302 | the loop over a listing is `BulkRun`; the first failing rename ends it, and earlier renames stay |
| FileTools.BulkOutcome | app/tools/file_tools.py:282-305 | the reply and the new filesystem of `rename_files_in_directory` for one listing order; `BulkReplyNothing` states its empty reply |
| FileTools.Workspace.RenameFilesInDirectory | app/tools/file_tools.py:282-305 | the reply and the new filesystem are `BulkOutcome` for some order of the directory's entries |
| FileTools.BulkStuck | app/tools/file_tools.py:287-305 | once an error has ended the loop, the rest of the listing changes nothing |
| FileTools.BulkNoneRenamed | app/tools/file_tools.py:288-302 | nothing is renamed and nothing fails exactly when no listed name is a regular file whose stem lacks the suffix; the filesystem is then unchanged |
| FileTools.BulkLines | app/tools/file_tools.py:289-298 | at most one line per listed name, each reporting one listed file and its new name |
| FileTools.BulkReplyNothing | app/tools/file_tools.py:300-302 | the reply is `No files were renamed` exactly when nothing was renamed and nothing failed |
| FileTools.RenameCommandOutcome | app/tools/file_tools.py:307-331 | the reply and the new filesystem of `execute_rename_command`; `RenameCommandOutcomeSpec` states each branch |
| FileTools.RenameCommandOutcomeSpec | app/tools/file_tools.py:307-331 | every branch of `execute_rename_command`: missing names, outside by `startswith`, a missing source, success moving the subtree, and failure with nothing changed |
| FileTools.Workspace.ExecuteRenameCommand | app/tools/file_tools.py:307-331 | the reply and the new filesystem are `RenameCommandOutcome` of the old filesystem |
| FileTools.RawRenameMoves | app/tools/file_tools.py:328 | a rename of the raw joined paths that succeeds moves the subtree between the normalised paths |
| FileTools.DeleteOutcome | app/tools/file_tools.py:333-357 | the reply and the new filesystem of `safe_delete_file`; `DeleteOutcomeSpec` states each branch |
| FileTools.DeleteOutcomeSpec | app/tools/file_tools.py:333-357 | every branch of `safe_delete_file`: missing path, outside, missing target, not a file; a file inside is removed and nothing else changes |
| FileTools.Workspace.DeleteFile | app/tools/file_tools.py:333-357 | the reply and the new filesystem are `DeleteOutcome` of the old filesystem |
| FileTools.EscapeRefused | app/tools/file_tools.py:31-35 | `../../etc/passwd` is refused by create, write, read and delete, and nothing changes |
| FileTools.SiblingWriteEscapes | app/tools/file_tools.py:94-105 | a sibling whose name extends the root's passes `write_file`'s check and is written outside the root, while `create_file` refuses it |
| PathGuard.Collapse | app/tools/file_tools.py:32 | `normpath` leaves only valid segments |
| PathGuard.AbsJoin | app/tools/file_tools.py:32 | `abspath(join(base, p))`; `RelativeJoin` and `AbsoluteReplacesRoot` state it |
| PathGuard.RelativeJoin | app/tools/file_tools.py:32 | `abspath(join(ROOT, p))` for a relative `p` applies `p`'s components to the root |
| PathGuard.AbsoluteReplacesRoot | app/tools/file_tools.py:32 | an absolute target replaces the root |
| PathGuard.DoubleSlashCollapse | app/tools/file_tools.py:32 | `normpath` keeps exactly two leading slashes |
| PathGuard.PrefixInside | app/tools/file_tools.py:69 | `startswith(PROJECTS_DIR)` on a normalised target; `PrefixInsideIff` states when it holds |
| PathGuard.PrefixInsideIff | app/tools/file_tools.py:69 | `startswith(ROOT)` holds exactly for a single-slash target whose segments match the root's, the last one only as a text prefix |
| PathGuard.CommonPathInside | app/tools/file_tools.py:34 | `commonpath([t, PROJECTS_DIR]) == PROJECTS_DIR`; `CommonPathInsideIff` states when it holds |
| PathGuard.CommonPathInsideIff | app/tools/file_tools.py:34 | `commonpath([t, ROOT]) == ROOT` holds exactly when the root's segments lead the target's |
| PathGuard.CommonPathImpliesPrefix | app/tools/file_tools.py:34-69 | for a single-slash target, `commonpath` is the stricter check |
| PathGuard.SiblingSlipsPastPrefix | app/tools/file_tools.py:34-69 | `../<root name><extra>/name` passes `startswith` but not `commonpath` |
| PathGuard.ParentEscapeRejected | app/tools/file_tools.py:34-69 | `../../etc/passwd` fails both checks |
| PathGuard.DoubleSlashSplitsChecks | app/tools/file_tools.py:34-69 | `//<root>/name` passes `commonpath` but not `startswith` |
| PathGuard.SplitExt | app/tools/file_tools.py:291 | `splitext` splits into stem and extension; the extension is empty or starts at a dot with no other dot or slash after it, and is taken only when the stem has a character other than a dot |
| PathGuard.SplitExtAtDot | app/tools/file_tools.py:291 | `name.ext` splits at its last dot |
| PathGuard.SplitExtDotFile | app/tools/file_tools.py:291 | a dot file such as `.bashrc` has no extension |
| FileSystem.MakeDirs | app/tools/file_tools.py:37 | `os.makedirs(..., exist_ok=True)`; `MakeDirsSpec` and `MakeDirsExisting` state it |
| FileSystem.MakeDirsSpec | app/tools/file_tools.py:37 | `makedirs(exist_ok=True)` succeeds exactly when neither the directory nor an ancestor is a file, and then only adds directories |
| FileSystem.WriteFileSpec | app/tools/file_tools.py:39-40 | writing succeeds exactly on a non-directory inside a directory and changes only that entry |
| FileSystem.ReadFile | app/tools/file_tools.py:73-74 | `open(t).read()` in text mode; `ReadFileSpec` and `ReadAfterWrite` state it |
| FileSystem.ReadFileSpec | app/tools/file_tools.py:73-74 | reading succeeds exactly on a file, with universal newlines |
| FileSystem.ReadAfterWrite | app/tools/file_tools.py:73-74 | what was written is what is read, up to carriage returns |
| FileSystem.TextModeReadPlain | app/tools/file_tools.py:73-74 | text without carriage returns reads back unchanged |
| FileSystem.MissingErrorCases | app/tools/file_tools.py:73-76 | a missing path below a file reports "not a directory", and otherwise "no such file" |
| FileSystem.Remove | app/tools/file_tools.py:354 | `os.remove`; `RemoveSpec` states it |
| FileSystem.RemoveSpec | app/tools/file_tools.py:354 | removing succeeds exactly on a file and drops only it |
| FileSystem.ListDir | app/tools/file_tools.py:49 | `os.listdir` as a set of names; `EntriesAreChildren`, `NonDirHasNoEntries` and `EmptyDirHasNoEntries` state it |
| FileSystem.EntriesAreChildren | app/tools/file_tools.py:49 | a listed name is an entry of the directory |
| FileSystem.Rename | app/tools/file_tools.py:277 | `os.rename` of two normalised paths; `RenameSpec` states it |
| FileSystem.RenameSpec | app/tools/file_tools.py:277 | `os.rename` succeeds exactly under POSIX's conditions, and then moves the subtree and keeps the rest |
| FileSystem.MoveTreeTree | app/tools/file_tools.py:277 | moving a subtree to a free place keeps the tree well formed |
| FileSystem.Walk | app/tools/file_tools.py:324-328 | the kernel's lookup of a raw path component by component; `WalkIsLexical` and `WalkThroughDirs` state it |
| FileSystem.WalkIsLexical | app/tools/file_tools.py:324-328 | a successful lookup of a raw path lands where lexical normalisation says |
| FileSystem.RawRename | app/tools/file_tools.py:328 | `os.rename` of two raw joined texts; `RawRenameIsRename`, `RawRenameSlashed` and `RawRenameTrailingSlash` state it |
| FileSystem.RawRenameIsRename | app/tools/file_tools.py:328 | a raw rename that succeeds is the rename of the normalised paths |
| Text.Strip | app/tools/file_tools.py:157 | `strip()` is a slice of the text with only whitespace cut from both ends, and neither end of it is whitespace |
| Text.Words | app/tools/file_tools.py:190 | `split()` gives words without whitespace |
| Text.SplitOnJoins | app/tools/file_tools.py:32 | `split('/')` gives pieces without `/` that join back to the text |
| Text.StripOuterQuotes | app/tools/file_tools.py:158-160 | a value wrapped in one kind of quote loses exactly those two characters, a lone quote character becomes empty, and any other value is unchanged |
| Text.Lower | app/tools/file_tools.py:250 | `str.lower` keeps the length; `LowerIdempotent` and `CommandPolicy.KelvinLowered` state more |
| Text.LowerIdempotent | app/tools/file_tools.py:250 | lower-casing twice is lower-casing once |
| LegacyTools.LegacyRootText | tools.py:3 | the fixed root prints as `/Users/user/Desktop/Ai Stuff/AgenticSystem/Projects` |
| LegacyTools.LegacyCreateOutcome | tools.py:26-43 | the reply and the new filesystem of the older `create_file`; `LegacyCreateOutcomeSpec` states each branch |
| LegacyTools.LegacyCreateOutcomeSpec | tools.py:26-43 | every branch of the older `create_file`, with the `startswith` check |
| LegacyTools.LegacyCreateFile | tools.py:26-43 | the reply and the new filesystem are `LegacyCreateOutcome` of the old filesystem |
| LegacyTools.LegacyCreateAcceptsSibling | tools.py:32 | the older `create_file` creates the file in a sibling of the root that the newer one refuses |
| LegacyTools.LegacyReadOutcome | tools.py:51-62 | the reply of the older `read_file`; `LegacyReadOutcomeSpec` states each branch |
| LegacyTools.LegacyReadOutcomeSpec | tools.py:51-62 | a target outside and a missing target get the same error; a file is read in text mode; a directory reports its error |
| LegacyTools.LegacyReadAgrees | tools.py:56 | the older read agrees with the newer one except on missing targets inside the root |
| LegacyTools.LegacyWriteThenRead | tools.py:51-86 | the older tools' write then read returns the cleaned content as text mode reads it |
| Kernel.GatedTerminal | app/tools/kernel.py:32 | the gated shell entry; `GateDecides` states both ways it goes |
| Kernel.GateDecides | app/tools/kernel.py:32 | a line the gate refuses gets `Command rejected for security reasons`, and one it admits goes to the tool unchanged |
| Kernel.MissingCommandRejected | app/tools/kernel.py:32 | without a command the gate sees the empty line and rejects it |
| Kernel.EmptyCommandUnsafe | app/tools/kernel.py:32 | the empty line invokes no allowed command |
| Kernel.GatePreventsCrash | app/tools/kernel.py:32 | whatever the gate admits does not crash the tool's checks |
| Kernel.UpperMoveJudgedAlike | app/tools/kernel.py:32 | the gate judges `MV …` as it judges `mv …` |
| Kernel.UpperCaseMoveUnchecked | app/tools/file_tools.py:190-191 | `MV …` is started without its arguments being checked |
| Kernel.PlainTextDefaults | app/tools/kernel.py:15-44 | text without `=` makes Create File write `new_file.txt`; Write, Read and Delete ask for a file path; Rename File asks for both names; the shell tool is rejected; Rename Files uses `_one` |
| Kernel.NamesDistinct | app/tools/kernel.py:14-64 | the registered names are pairwise distinct |
| Agent.StreamingCallbackHandler.constructor | app/controller/agent.py:69-72 | a new handler has no tool flag and has sent nothing |
| Agent.StreamingCallbackHandler.OnLlmStart | app/controller/agent.py:74-83 | the new state is `After` of the old one for the model start, which sends the `Thinking` step |
| Agent.StreamingCallbackHandler.OnLlmNewToken | app/controller/agent.py:85-94 | the new state is `After` of the old one |
| Agent.StreamingCallbackHandler.OnToolStart | app/controller/agent.py:96-107 | the new state is `After` of the old one |
| Agent.StreamingCallbackHandler.OnToolEnd | app/controller/agent.py:109-118 | the new state is `After` of the old one |
| Agent.StreamingCallbackHandler.OnAgentAction | app/controller/agent.py:120-129 | the new state is `After` of the old one |
| Agent.StreamingCallbackHandler.OnAgentFinish | app/controller/agent.py:131-141 | it reports raising exactly for a dictionary without `output`; the new state is `After` of the old one |
| Agent.After | app/controller/agent.py:74-141 | the state after one callback; `AfterAppends`, `TokenStreamedIff`, `ToolStartSetsFlag`, `StepsKeepFlag` and `FinishResetsFlag` state it |
| Agent.ReplaySnoc | app/controller/agent.py:68-141 | replaying one more callback is one more step |
| Agent.AfterAppends | app/controller/agent.py:74-141 | each callback keeps the events sent and adds at most one |
| Agent.ReplayAppends | app/controller/agent.py:74-141 | the event log only grows, by at most one event per callback |
| Agent.TokenStreamedIff | app/controller/agent.py:85-94 | a token is sent exactly when no tool has been used, and otherwise nothing changes |
| Agent.ToolStartSetsFlag | app/controller/agent.py:96-107 | a tool start sets the flag and sends one step naming the tool (`Unknown tool` by default) with its input |
| Agent.StepsKeepFlag | app/controller/agent.py:74-129 | the model's start, a tool's end and an agent action each send one step with their fields and keep the flag |
| Agent.FinishResetsFlag | app/controller/agent.py:131-141 | a finish with an output sends one `final` event, `direct` exactly when the flag was clear, and clears the flag; one that raises changes nothing |
| Agent.FlagTracksToolStarts | app/controller/agent.py:72-141 | from a fresh handler the flag is set exactly when a tool started and no finish reset it since |
| Agent.DirectIffNoTool | app/controller/agent.py:131-141 | the final event is `direct` exactly when no tool started since the handler was made or since the previous finish |
| Agent.NoTokensDuringToolUse | app/controller/agent.py:85-141 | once a tool is in use, no token is sent until a finish resets the flag |
| Content.QuotesRemoved | app/tools/file_tools.py:12-15 | text without backslashes wrapped in one kind of quote comes back without the quotes |
| ArgParser.TwoPairSegments | app/tools/file_tools.py:137-151 | `k=v, k2='text'` splits into exactly the two assignments, at the comma outside the quotes |
| FileSystem.MkdirSpec | app/tools/file_tools.py:37 | one `mkdir` with `exist_ok` succeeds exactly when neither the directory nor its parent is a file, and then adds at most the directory |
| FileSystem.MakeDirsExisting | app/tools/file_tools.py:37 | `makedirs` on an existing directory changes nothing |
| FileSystem.MissingError | app/tools/file_tools.py:75-76 | looking up a missing path fails with "no such file" or "not a directory" |
| FileSystem.TextModeRead | app/tools/file_tools.py:73-74 | universal-newline reading leaves no carriage return and never lengthens the text |
| FileSystem.NonDirHasNoEntries | app/tools/file_tools.py:49 | only a directory has entries |
| FileSystem.EmptyDirHasNoEntries | app/tools/file_tools.py:49 | a directory is empty exactly when it lists no entries |
| FileSystem.MoveTreeContents | app/tools/file_tools.py:277 | after a move, the subtree from the source is at the target, nothing is left under the source, and everything outside both is as it was |
| FileSystem.WalkThroughDirs | app/tools/file_tools.py:324-328 | a lookup whose every step reaches an existing directory succeeds |
| FileSystem.RawRenameSlashed | app/tools/file_tools.py:328 | renaming between the raw texts of two paths in existing directories is renaming the paths |
| FileSystem.NamedComponents | app/tools/file_tools.py:328 | the components looked up are those of the text with the trailing empty ones dropped, the lone one of `/` kept |
| FileSystem.TrailingSlashComponents | app/tools/file_tools.py:328 | a trailing slash adds an empty component and changes nothing that is looked up |
| FileSystem.RawRenameTrailingSlash | app/tools/file_tools.py:328 | a trailing slash on either text refuses a regular-file source with "not a directory" and otherwise renames as without it |
| FileSystem.DirRenamedToSlashedName | app/tools/file_tools.py:328 | a directory renamed to a free name written with a trailing slash is moved there |
| FileSystem.RawRenameDotSlash | app/tools/file_tools.py:328 | a target ending in `.` or `..`, with or without a trailing slash, is looked up alike and is never renamed onto |
| FileTools.BulkStepShape | app/tools/file_tools.py:290-298 | one pass adds at most the line for its name, and leaves nothing renamed and nothing failed exactly when that held before and the name is not renamed |
| FileTools.SuffixedValid | app/tools/file_tools.py:291-293 | a suffix without a slash turns a valid file name into a valid file name |
| PathGuard.CommonPrefix | app/tools/file_tools.py:34 | the common leading run of segments is a prefix of both paths and cannot be extended |
| PathGuard.RFind | app/tools/file_tools.py:291 | `rfind` gives -1 or an index of the character, with no occurrence after it |
| Text.SplitJoin | app/tools/file_tools.py:32 | splitting pieces joined with a separator they lack gives the pieces back |
| Text.StripEmptyIff | app/tools/file_tools.py:214-215 | `strip()` is empty exactly when the text is only whitespace |
| Text.IndexOf | app/tools/file_tools.py:155 | `index` gives the first occurrence of the character |

## Left out

- Printing: the debugging `print` calls (`create_file`, the parser's error message) are not modelled.
- The non-string branch of `clean_content` (`str(content)`) is not modelled: every parsed value is a string.
- The parser's `except` fallback to `{'input': input_str}` is not modelled: for the modelled inputs (a string or a dictionary) nothing inside the `try` raises, so the fallback is unreachable.
- The shell tool's entry parses its input twice; both parses give the same dictionary, so the model parses once.
- `Lower` maps the ASCII capitals and the Kelvin sign (to `k`), the only characters Python's `str.lower` turns into ASCII letters alone. It leaves every other character as it is. Python also lowers `İ` to `i` plus a combining dot, so the line grows by one character; the model keeps `İ`. That `i` is always followed by the dot, while every `i` of a pattern or allowed command is followed by a letter and none ends in `i`, so the verdict is the same. Every other character Python lowers stays outside ASCII, where no pattern or allowed command has a letter.
- OS error texts are the `[Errno N] message` part of `str(e)`, without the file names Python appends.
- What a started shell command does to the filesystem is not derived from the command: it is the parameter `left` of `FileTools.Workspace.ExecuteTerminalCommand` and `Kernel.Invoke`, any well-formed tree. The filesystem changes to it exactly when a process starts. `process.kill()`, the process's streams and the process left running after the `TypeError` are not modelled.
- FileTools.GivenTimeoutFails: a `timeout` given in a tool's dictionary is always text here, because `ArgMap` values are strings. So the numeric-timeout path, and its `Command timed out after N seconds` with any N other than 30, is not modelled.
- Symbolic links, permissions, non-UTF-8 content (the `UnicodeDecodeError` of `read_file`) and NUL bytes in paths are not modelled. The filesystem holds only directories and text files.
- FileSystem.RawRename: trailing slashes follow `rename(2)` on Linux: they are dropped before the lookup, and a regular-file source then fails with `ENOTDIR`. The model checks `EBUSY` for a last component `.` or `..` after both lookups, as Linux does; it does not model `EISDIR`/`ENOTDIR` orderings that depend on symbolic links, which the filesystem does not have.
- The filesystem's errors, their order and their codes follow Linux (`rename(2)`, `ENOTEMPTY` as 39, case-sensitive names). The older `tools.py` roots its tools in `/Users/user`, which suggests macOS; there the codes differ (`ENOTEMPTY` is 66) and names are usually case-insensitive. That is not modelled.
- The home directory of `expanduser("~")` is a parameter and is taken already normalised.
- FileTools.Workspace.RenameFilesInDirectory: the directory is taken as a normalised path. The table only ever passes the root.
- A command that is only whitespace makes `command.split()[0]` raise `IndexError`, which escapes the tool. The model gives it as the explicit reply `Raises(...)`.
- `socketio.emit` is modelled as appending to the handler's event log. The socket, its transport and the event name `agent_update` are not modelled.
- Agent.StreamingCallbackHandler.OnToolEnd: the output and the finish values are taken as the text `str()` gives. The LLM callbacks' other arguments (`serialized`, `prompts`, `kwargs`) are not modelled.
- Agent.StreamingCallbackHandler.OnAgentAction: the action's `tool_input` is taken as text too, although LangChain may pass a dictionary, which the handler emits as it is.
- The language model, the agent's construction (`create_agent`), the web tool and Search Online, and the Flask app are not part of this model.
- `show_current_directory` is defined twice in `app/tools/file_tools.py`. The second definition wins, and both return the root; the model has one, the `Show Current Directory` entry of `Kernel.Invoke`.
- `tools.py`'s `clean_content`, `parse_input_string`, `list_files`, `write_file`, `show_current_directory` and `file_exists` are the same code as the newer module's and are modelled once, by `Content`, `ArgParser` and `FileTools`.
