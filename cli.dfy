/** The `agreement-system` command line: the command is the third element
    of the process arguments, the flags are everything after it, and a
    `switch` on the command picks `init`, `update`, the help text, or an
    error. */
module Cli {
  import opened FileSystem
  import opened TemplateSync
  import opened Layout
  import opened Installer
  import opened Updater

  /** The command token, if there is one, and the flags. */
  datatype Invocation = Invocation(command: Option<string>, flags: seq<string>)

  /** `argv[2]` and `argv.slice(3)`: the first two elements are the runtime
      and the script. */
  function ParseArgv(argv: seq<string>): (r: Invocation)
    ensures r.command.Some? <==> |argv| > 2
    ensures r.command.Some? ==> argv == argv[..2] + [r.command.value] + r.flags
    ensures r.command.None? ==> r.flags == []
  {
    if |argv| > 2 then Invocation(Some(argv[2]), argv[3..]) else Invocation(None, [])
  }

  /** Splitting a command line gives back the token and the flags it was
      made of. */
  lemma ParseArgvRoundTrip(runtime: string, script: string, command: string, flags: seq<string>)
    ensures ParseArgv([runtime, script, command] + flags) == Invocation(Some(command), flags)
  {
    var argv := [runtime, script, command] + flags;
    assert argv[3..] == flags;
  }

  /** What the `switch` chooses. */
  datatype Action = RunInit(initFlags: seq<string>) | RunUpdate(updateFlags: seq<string>) | ShowHelp | UnknownCommand(token: string)

  /** The tokens that ask for the help text. */
  predicate IsHelpToken(c: string) {
    c == "help" || c == "--help" || c == "-h"
  }

  function Dispatch(inv: Invocation): (a: Action)
    ensures a.RunInit? <==> inv.command == Some("init")
    ensures a.RunUpdate? <==> inv.command == Some("update")
    ensures a.RunInit? ==> a.initFlags == inv.flags
    ensures a.RunUpdate? ==> a.updateFlags == inv.flags
    ensures a == ShowHelp <==> inv.command.None? || IsHelpToken(inv.command.value)
    ensures a.UnknownCommand? <==>
      inv.command.Some? && inv.command.value != "init" && inv.command.value != "update" && !IsHelpToken(inv.command.value)
    ensures a.UnknownCommand? ==> inv.command == Some(a.token)
  {
    match inv.command
    case None => ShowHelp
    case Some(c) =>
      if c == "init" then RunInit(inv.flags)
      else if c == "update" then RunUpdate(inv.flags)
      else if IsHelpToken(c) then ShowHelp
      else UnknownCommand(c)
  }

  /** A whole run of the program on the process arguments `argv`, in the
      project `fs`, with `answer` typed at the prompt if one is shown: the
      exit status and the project it leaves. */
  function Run(argv: seq<string>, fs: Fs, answer: string, t: Templates): Completion {
    match Dispatch(ParseArgv(argv))
    case RunInit(flags) => Completion(0, InstallResult(fs, ParseFlags(flags), Affirmative(answer), t))
    case RunUpdate(_) => UpdateResult(fs, t)
    case ShowHelp => Completion(0, fs)
    case UnknownCommand(_) => Completion(1, fs)
  }

  /** The program fails, with status 1, exactly on an unknown command and
      on an update without an installation; it never fails otherwise. */
  lemma RunExitCode(argv: seq<string>, fs: Fs, answer: string, t: Templates)
    ensures Run(argv, fs, answer, t).code == 0 || Run(argv, fs, answer, t).code == 1
    ensures Run(argv, fs, answer, t).code == 1 <==>
      || Dispatch(ParseArgv(argv)).UnknownCommand?
      || (Dispatch(ParseArgv(argv)).RunUpdate? && !Exists(fs, AgreementsDir))
  {
    UpdateExitCode(fs, t);
  }

  /** Help, a missing command and an unknown command change nothing. */
  lemma RunReadOnly(argv: seq<string>, fs: Fs, answer: string, t: Templates)
    requires |argv| <= 2 || argv[2] !in ["init", "update"]
    ensures Run(argv, fs, answer, t).fs == fs
  {
  }

  /** `init` hands every later argument to the installer as its flags. */
  lemma RunInitFlags(runtime: string, script: string, flags: seq<string>, fs: Fs, answer: string, t: Templates)
    ensures Run([runtime, script, "init"] + flags, fs, answer, t)
         == Completion(0, InstallResult(fs, ParseFlags(flags), Affirmative(answer), t))
  {
    ParseArgvRoundTrip(runtime, script, "init", flags);
  }

  /** `update` ignores its flags and the answer: every update command line
      has the same outcome. */
  lemma RunUpdateIgnoresFlags(runtime: string, script: string, flags1: seq<string>, flags2: seq<string>,
                              fs: Fs, answer1: string, answer2: string, t: Templates)
    ensures Run([runtime, script, "update"] + flags1, fs, answer1, t)
         == Run([runtime, script, "update"] + flags2, fs, answer2, t)
         == UpdateResult(fs, t)
  {
    ParseArgvRoundTrip(runtime, script, "update", flags1);
    ParseArgvRoundTrip(runtime, script, "update", flags2);
  }

  /** Without a command, and with `-h`, the program shows help and succeeds;
      a misspelt command fails. */
  lemma RunExamples(fs: Fs, answer: string, t: Templates)
    ensures Run(["node", "cli.js"], fs, answer, t) == Completion(0, fs)
    ensures Run(["node", "cli.js", "-h", "--yes"], fs, answer, t) == Completion(0, fs)
    ensures Run(["node", "cli.js", "instal"], fs, answer, t) == Completion(1, fs)
  {
    ParseArgvRoundTrip("node", "cli.js", "-h", ["--yes"]);
    ParseArgvRoundTrip("node", "cli.js", "instal", []);
  }
}
