/** `is_command_safe`: the gate in front of the shell tool. It works on the lower-cased command
    line: an allow-list on the leading command, a deny-list of substrings, and a rule against
    `rm` with any flag that could make it recursive or forced. */
module CommandPolicy {
  import opened Text

  const AllowedCommands: seq<string> :=
    ["ls", "mv", "cp", "pwd", "echo", "mkdir", "touch", "cat", "find", "basename", "dirname", "rm"]

  const ForbiddenPatterns: seq<string> :=
    ["rm -rf", "rmdir", "del", "format", ">", ">>", "|", "&", "sudo", ";", "`", "$("]

  const RmFlags: seq<string> := ["-r", "-rf", "-fr", "-f", "--recursive"]

  /** `any(p in s for p in pats)` */
  function ContainsAny(s: string, pats: seq<string>): (r: bool)
    ensures r <==> exists i :: 0 <= i < |pats| && Contains(s, pats[i])
    decreases |pats|
  {
    if pats == [] then false
    else
      var rest := ContainsAny(s, pats[1..]);
      assert rest <==> exists i :: 1 <= i < |pats| && Contains(s, pats[i]) by {
        assert forall i :: 0 <= i < |pats| - 1 ==> pats[1..][i] == pats[i + 1];
        if exists i :: 1 <= i < |pats| && Contains(s, pats[i]) {
          var i :| 1 <= i < |pats| && Contains(s, pats[i]);
          assert pats[1..][i - 1] == pats[i];
        }
      }
      Contains(s, pats[0]) || rest
  }

  /** The command line is `cmd` alone or `cmd` followed by a space. */
  predicate Invokes(s: string, cmd: string) {
    StartsWith(s, cmd + " ") || s == cmd
  }

  /** `any(s.startswith(cmd + ' ') or s == cmd for cmd in cmds)` */
  function InvokesAny(s: string, cmds: seq<string>): (r: bool)
    ensures r <==> exists i :: 0 <= i < |cmds| && Invokes(s, cmds[i])
    decreases |cmds|
  {
    if cmds == [] then false
    else
      var rest := InvokesAny(s, cmds[1..]);
      assert rest <==> exists i :: 1 <= i < |cmds| && Invokes(s, cmds[i]) by {
        assert forall i :: 0 <= i < |cmds| - 1 ==> cmds[1..][i] == cmds[i + 1];
        if exists i :: 1 <= i < |cmds| && Invokes(s, cmds[i]) {
          var i :| 1 <= i < |cmds| && Invokes(s, cmds[i]);
          assert cmds[1..][i - 1] == cmds[i];
        }
      }
      Invokes(s, cmds[0]) || rest
  }

  /** The special `rm` rule: an `rm ` command line holding any of the flags. */
  predicate RmWithFlag(lower: string) {
    StartsWith(lower, "rm ") && ContainsAny(lower, RmFlags)
  }

  /** `is_command_safe(command)`: true exactly when the lower-cased line invokes an allowed
      command, holds no forbidden pattern, and is not an `rm` line carrying a flag. */
  function IsCommandSafe(command: string): (r: bool)
    ensures r <==>
      && (exists i :: 0 <= i < |AllowedCommands| && Invokes(Lower(command), AllowedCommands[i]))
      && (forall i :: 0 <= i < |ForbiddenPatterns| ==> !Contains(Lower(command), ForbiddenPatterns[i]))
      && !(StartsWith(Lower(command), "rm ") && exists i :: 0 <= i < |RmFlags| && Contains(Lower(command), RmFlags[i]))
  {
    var lower := Lower(command);
    if RmWithFlag(lower) then false
    else InvokesAny(lower, AllowedCommands) && !ContainsAny(lower, ForbiddenPatterns)
  }

  /** The five flags reduce to two substrings: `-rf` and `--recursive` hold `-r`, `-fr` holds `-f`. */
  lemma RmFlagsReduce(s: string)
    ensures ContainsAny(s, RmFlags) <==> Contains(s, "-r") || Contains(s, "-f")
  {
    assert RmFlags[0] == "-r" && RmFlags[3] == "-f";
    if Contains(s, "-rf") {
      assert "-rf"[..2] == "-r";
      ContainsTransitive(s, "-rf", "-r");
    }
    if Contains(s, "-fr") {
      assert "-fr"[1..][..2] == "fr"[..2];
      assert "-fr"[..2] == "-f";
      ContainsTransitive(s, "-fr", "-f");
    }
    if Contains(s, "--recursive") {
      assert "--recursive"[1..][..2] == "-r";
      ContainsTransitive(s, "--recursive", "-r");
    }
  }

  /** The gate sees through case: a command line and its lower-cased form are judged alike. */
  lemma GateIgnoresCase(command: string)
    ensures IsCommandSafe(command) == IsCommandSafe(Lower(command))
  {
    LowerIdempotent(command);
  }

  /** Every `rm ` line holding `-r` or `-f` anywhere is refused, a file name such as `my-file`
      included: `rm -rf project` is the case `a` empty, `b` = `f project`. */
  lemma FlaggedRmRejected(a: string, flag: string, b: string)
    requires flag == "-r" || flag == "-f"
    ensures !IsCommandSafe("rm " + a + flag + b)
  {
    var c := "rm " + a + flag + b;
    LowerAppend("rm " + a + flag, b);
    LowerAppend("rm " + a, flag);
    LowerAppend("rm ", a);
    LowerUnchanged("rm ");
    LowerUnchanged(flag);
    var lower := "rm " + Lower(a) + flag + Lower(b);
    assert Lower(c) == lower;
    assert lower[..3] == "rm ";
    var at := 3 + |Lower(a)|;
    assert lower[at..at + 2] == flag;
    ContainsAt(lower, flag, at);
    RmFlagsReduce(lower);
  }

  /** `rm` of a plain file is not caught by the flag rule: `rm old.txt` passes the gate, its name
      spelling none of the forbidden patterns. */
  lemma RmOldAccepted()
    ensures IsCommandSafe("rm old.txt")
  {
    var s := "rm old.txt";
    assert s[..3] == "rm ";
    assert forall i :: 0 <= i < |s| ==> OldLineChar(s[i]);
    RmLineAccepted(s);
  }

  /** The characters of `rm old.txt`. */
  predicate OldLineChar(c: char) {
    c == 'r' || c == 'm' || c == ' ' || c == 'o' || c == 'l' || c == 'd' || c == 't' || c == 'x' || c == '.'
  }

  lemma OldLineLacks(s: string)
    requires forall i :: 0 <= i < |s| ==> OldLineChar(s[i])
    ensures forall i :: 0 <= i < |s| ==> !('A' <= s[i] <= 'Z') && s[i] != '\U{212A}'
    ensures '-' !in s && 'i' !in s && 'e' !in s && 'f' !in s && 's' !in s
    ensures '>' !in s && '|' !in s && '&' !in s && ';' !in s && '`' !in s && '$' !in s
  {
  }

  /** An `rm ` line made of those characters passes the gate. */
  lemma RmLineAccepted(s: string)
    requires StartsWith(s, "rm ")
    requires forall i :: 0 <= i < |s| ==> OldLineChar(s[i])
    ensures IsCommandSafe(s)
  {
    OldLineLacks(s);
    LowerUnchanged(s);
    LacksFirstChar(s, "-r");
    LacksFirstChar(s, "-f");
    RmFlagsReduce(s);
    forall k | 0 <= k < |ForbiddenPatterns|
      ensures !Contains(s, ForbiddenPatterns[k])
    {
      RmOldAvoids(s, k);
    }
    assert s[..3] == "rm ";
    assert Invokes(s, AllowedCommands[11]);
  }

  /** The characters of `rm old.txt` miss one character of every forbidden pattern. */
  lemma RmOldAvoids(s: string, k: nat)
    requires k < |ForbiddenPatterns|
    requires '-' !in s && 'i' !in s && 'e' !in s && 'f' !in s && 's' !in s
    requires '>' !in s && '|' !in s && '&' !in s && ';' !in s && '`' !in s && '$' !in s
    ensures !Contains(s, ForbiddenPatterns[k])
  {
    if k == 0 {
      LacksSomeChar(s, "rm -rf", 3);
    } else if k == 1 {
      LacksSomeChar(s, "rmdir", 3);
    } else if k == 2 {
      LacksSomeChar(s, "del", 1);
    } else {
      LacksSomeChar(s, ForbiddenPatterns[k], 0);
    }
  }

  /** Python lower-cases the Kelvin sign to an ASCII `k`, so `m\u212Adir x` is judged as
      `mkdir x` and passes the gate. */
  lemma KelvinMkdirAccepted()
    ensures Lower("m\U{212A}dir x") == "mkdir x"
    ensures IsCommandSafe("m\U{212A}dir x")
  {
    KelvinLowered();
    GateIgnoresCase("m\U{212A}dir x");
    MkdirXAccepted();
  }

  lemma KelvinLowered()
    ensures Lower("m\U{212A}dir x") == "mkdir x"
  {
  }

  lemma MkdirXAccepted()
    ensures IsCommandSafe("mkdir x")
  {
    var s := "mkdir x";
    assert s[..6] == "mkdir ";
    assert forall i :: 1 <= i < |s| ==> MkdirTailChar(s[i]);
    MkdirLineAccepted(s);
  }

  /** The characters of `mkdir x` after its `m`. */
  predicate MkdirTailChar(c: char) {
    c == 'k' || c == 'd' || c == 'i' || c == 'r' || c == ' ' || c == 'x'
  }

  /** A `mkdir ` line made of those characters passes the gate. */
  lemma MkdirLineAccepted(s: string)
    requires StartsWith(s, "mkdir ")
    requires forall i :: 1 <= i < |s| ==> MkdirTailChar(s[i])
    ensures IsCommandSafe(s)
  {
    assert forall i :: 0 <= i < |s| ==> !('A' <= s[i] <= 'Z') && s[i] != '\U{212A}' by {
      assert s[0] == 'm';
    }
    LowerUnchanged(s);
    assert 'm' !in s[1..];
    assert '-' !in s && 'e' !in s && 'f' !in s && 's' !in s;
    assert '>' !in s && '|' !in s && '&' !in s && ';' !in s && '`' !in s && '$' !in s;
    assert s[0] != 'r';
    forall k | 0 <= k < |ForbiddenPatterns|
      ensures !Contains(s, ForbiddenPatterns[k])
    {
      MkdirAvoids(s, k);
    }
    assert Invokes(s, AllowedCommands[5]);
  }

  lemma MkdirAvoids(s: string, k: nat)
    requires k < |ForbiddenPatterns| && s != []
    requires 'm' !in s[1..] && '-' !in s && 'e' !in s && 'f' !in s && 's' !in s
    requires '>' !in s && '|' !in s && '&' !in s && ';' !in s && '`' !in s && '$' !in s
    ensures !Contains(s, ForbiddenPatterns[k])
  {
    if k == 0 {
      LacksSomeChar(s, "rm -rf", 3);
    } else if k == 1 {
      LacksSomeCharPast(s, "rmdir", 1);
    } else if k == 2 {
      LacksSomeChar(s, "del", 1);
    } else {
      LacksSomeChar(s, ForbiddenPatterns[k], 0);
    }
  }

  /** Writing a forbidden pattern to the lower-case form. */
  lemma ForbiddenAreLowerCase(k: nat)
    requires k < |ForbiddenPatterns|
    ensures Lower(ForbiddenPatterns[k]) == ForbiddenPatterns[k]
  {
    LowerUnchanged(ForbiddenPatterns[k]);
  }

  /** A command line with a forbidden pattern anywhere is refused, whatever surrounds it:
      `ls; rm -rf /` (a `;`), `cat model.txt` (a `del`), redirections, pipes, `sudo`. */
  lemma ForbiddenRejected(a: string, k: nat, b: string)
    requires k < |ForbiddenPatterns|
    ensures !IsCommandSafe(a + ForbiddenPatterns[k] + b)
  {
    var p := ForbiddenPatterns[k];
    ForbiddenAreLowerCase(k);
    LowerAppend(a + p, b);
    LowerAppend(a, p);
    var lower := Lower(a) + p + Lower(b);
    assert Lower(a + p + b) == lower;
    assert lower[|Lower(a)|..|Lower(a)| + |p|] == p;
    ContainsAt(lower, p, |Lower(a)|);
  }

  /** A line invoking a word has that word first. */
  lemma InvokedWordFirst(s: string, cmd: string)
    requires IsWord(cmd) && Invokes(s, cmd)
    ensures Words(s) != [] && Words(s)[0] == cmd
  {
    assert s[0] == cmd[0];
    assert TrimStart(s) == s;
    var w := Token(s);
    assert forall j :: 0 <= j < |cmd| ==> s[j] == cmd[j] && !IsSpace(s[j]);
    assert |cmd| == |s| || s[|cmd|] == ' ';
    assert |w| == |cmd|;
    assert w == cmd;
  }

  lemma WordsNonEmpty(s: string)
    requires s != [] && !IsSpace(s[0])
    ensures Words(s) != []
  {
    assert TrimStart(s) == s;
  }

  lemma AllowedAreWords(i: nat)
    requires i < |AllowedCommands|
    ensures IsWord(AllowedCommands[i])
  {
  }

  /** What the gate admits has a first word, and it is an allowed command; the terminal tool's
      `command.split()[0]` then exists. */
  lemma SafeLeadingWord(command: string)
    requires IsCommandSafe(command)
    ensures Words(command) != []
    ensures Words(Lower(command)) != [] && Words(Lower(command))[0] in AllowedCommands
  {
    var lower := Lower(command);
    var i :| 0 <= i < |AllowedCommands| && Invokes(lower, AllowedCommands[i]);
    AllowedAreWords(i);
    InvokedWordFirst(lower, AllowedCommands[i]);
    SafeStartsWithWord(command, AllowedCommands[i]);
  }

  lemma SafeStartsWithWord(command: string, cmd: string)
    requires IsWord(cmd) && Invokes(Lower(command), cmd)
    ensures Words(command) != []
  {
    var lower := Lower(command);
    assert lower[0] == cmd[0];
    assert lower[0] == LowerChar(command[0]);
    LowerKeepsSpace(command[0]);
    WordsNonEmpty(command);
  }

  /** A character of a harmless file name: a lower-case letter other than `d`, `f` and `s` (which
      could spell `del`, `rmdir`, `format` or `sudo`), a digit, `.` or `_`. */
  predicate HarmlessNameChar(c: char) {
    (('a' <= c <= 'z') && c != 'd' && c != 'f' && c != 's') || ('0' <= c <= '9') || c == '.' || c == '_'
  }

  /** A line of harmless name characters and spaces has none of the characters below. */
  lemma HarmlessLineLacks(s: string)
    requires forall i :: 0 <= i < |s| ==> s[i] == ' ' || HarmlessNameChar(s[i])
    ensures '-' !in s && 'd' !in s && 'f' !in s && 's' !in s
    ensures '>' !in s && '|' !in s && '&' !in s && ';' !in s && '`' !in s && '$' !in s
  {
  }

  /** Each forbidden pattern has a character that such a line lacks. */
  lemma HarmlessLineAvoidsPatterns(s: string, k: nat)
    requires k < |ForbiddenPatterns|
    requires '-' !in s && 'd' !in s && 'f' !in s && 's' !in s
    requires '>' !in s && '|' !in s && '&' !in s && ';' !in s && '`' !in s && '$' !in s
    ensures !Contains(s, ForbiddenPatterns[k])
  {
    if k == 0 {
      LacksSomeChar(s, "rm -rf", 3);
    } else if k == 1 {
      LacksSomeChar(s, "rmdir", 2);
    } else {
      LacksSomeChar(s, ForbiddenPatterns[k], 0);
    }
  }

  /** `rm` of a single harmless file name, such as `rm main.py`, passes the gate. */
  lemma RmSingleFileAccepted(name: string)
    requires forall i :: 0 <= i < |name| ==> HarmlessNameChar(name[i])
    ensures IsCommandSafe("rm " + name)
  {
    var s := "rm " + name;
    assert forall i :: 0 <= i < |s| ==> s[i] == ' ' || HarmlessNameChar(s[i]);
    LowerUnchanged(s);
    HarmlessLineLacks(s);
    LacksFirstChar(s, "-r");
    LacksFirstChar(s, "-f");
    RmFlagsReduce(s);
    forall k | 0 <= k < |ForbiddenPatterns|
      ensures !Contains(s, ForbiddenPatterns[k])
    {
      HarmlessLineAvoidsPatterns(s, k);
    }
    assert s[..3] == "rm ";
    assert Invokes(s, AllowedCommands[11]);
  }
}
