/** `agreement-system init`: detect the environment, ask before touching an
    existing installation, copy the core files and the command definitions,
    then wire in the agent framework when it is present or forced. */
module Installer {
  import opened FileSystem
  import opened Strings
  import opened TemplateSync
  import opened Layout

  /** The environment snapshot `detect` takes once, before any write. */
  datatype Env = Env(hasBmad: bool, hasSpeckit: bool, hasClaudeCommands: bool, hasAgreements: bool)

  function Detect(fs: Fs): Env {
    Env(Exists(fs, BmadDir), Exists(fs, SpeckitDir), Exists(fs, CommandsDir), Exists(fs, AgreementsDir))
  }

  /** The three flags `init` looks for; anything else in the list is ignored. */
  datatype Options = Options(skipBmad: bool, forceBmad: bool, autoYes: bool)

  function ParseFlags(flags: seq<string>): Options {
    Options("--skip-bmad" in flags, "--force-bmad" in flags, "--yes" in flags)
  }

  /** The answer to the prompt as `ask` returns it: trimmed, then
      lower-cased. */
  function NormalizeAnswer(answer: string): (r: string)
    ensures r == [] || (!IsSpace(r[0]) && !IsSpace(r[|r| - 1]))
    ensures forall i :: 0 <= i < |r| ==> !('A' <= r[i] <= 'Z')
  {
    ToLower(Trim(answer))
  }

  /** Only `y` and `yes` confirm the overwrite. */
  predicate Affirmative(answer: string) {
    var a := NormalizeAnswer(answer);
    a == "y" || a == "yes"
  }

  /** An answer made of a word between leading and trailing spaces (every
      answer is one, by `TrimSplits`) confirms exactly when that word,
      lower-cased, is `y` or `yes`. */
  lemma AffirmativeIff(lead: string, word: string, trail: string)
    requires AllSpace(lead) && AllSpace(trail)
    requires word == [] || (!IsSpace(word[0]) && !IsSpace(word[|word| - 1]))
    ensures Affirmative(lead + word + trail) <==> ToLower(word) == "y" || ToLower(word) == "yes"
  {
    TrimPadded(lead, word, trail);
  }

  /** A padded, upper-case yes confirms. */
  lemma PaddedYesConfirms()
    ensures Affirmative(" YES\n")
  {
    assert AllSpace(" ") && AllSpace("\n");
    assert ToLower("YES") == "yes";
    assert " YES\n" == " " + "YES" + "\n";
    AffirmativeIff(" ", "YES", "\n");
  }

  /** A spaced-out yes does not. */
  lemma SpacedYesDeclines()
    ensures !Affirmative("y e s")
  {
    assert AllSpace("");
    assert |ToLower("y e s")| == 5;
    assert "y e s" == "" + "y e s" + "";
    AffirmativeIff("", "y e s", "");
  }

  /** The framework step runs unless skipped, when forced or detected. */
  function ShouldInstallBmad(opts: Options, env: Env): bool {
    !opts.skipBmad && (opts.forceBmad || env.hasBmad)
  }

  /** The run stops at the prompt: an installation exists, `--yes` was not
      given and the answer was not a yes. */
  predicate Declined(fs: Fs, opts: Options, confirmed: bool) {
    Detect(fs).hasAgreements && !opts.autoYes && !confirmed
  }

  /** Step 1: the core table. */
  function CoreStep(fs: Fs, t: Templates): Fs {
    SyncAll(fs, CoreMappings, t)
  }

  /** Step 2: the command directory, created when the snapshot did not see
      it, then the command table. */
  function CommandStep(fs: Fs, env: Env, t: Templates): Fs {
    var withDir := if env.hasClaudeCommands then fs else MakeDirs(fs, CommandsDir);
    SyncAll(withDir, CommandMappings, t)
  }

  /** Step 3a: the customize files, when the agents directory is there now. */
  function CustomizeStep(fs: Fs, t: Templates): Fs {
    if Exists(fs, AgentsDir(BmadDir)) then SyncAll(fs, InstallCustomize, t) else fs
  }

  /** Step 3b: the sidecar memory directory, created when missing, and the
      sidecar file. */
  function SidecarStep(fs: Fs, t: Templates): Fs {
    var withMemory := if Exists(fs, MemoryDir) then fs else MakeDirs(fs, MemoryDir);
    Synced(withMemory, ActiveMapping, t)
  }

  /** Step 3: the framework integration. */
  function BmadStep(fs: Fs, t: Templates): Fs {
    SidecarStep(CustomizeStep(fs, t), t)
  }

  /** The project directory after `install` with options `opts`, where
      `confirmed` says whether the answer to the prompt is a yes (it only
      matters when the prompt is shown). */
  function InstallResult(fs: Fs, opts: Options, confirmed: bool, t: Templates): Fs {
    var env := Detect(fs);
    if Declined(fs, opts, confirmed) then fs
    else
      var cmds := CommandStep(CoreStep(fs, t), env, t);
      if ShouldInstallBmad(opts, env) then BmadStep(cmds, t) else cmds
  }

  /** The files an install may write: none when declined; otherwise the core
      and command tables, and with the framework step the sidecar file and,
      when the agents directory exists, the customize files. */
  function InstallTargets(fs: Fs, opts: Options, confirmed: bool): set<string> {
    if Declined(fs, opts, confirmed) then {}
    else
      Dests(CoreMappings) + Dests(CommandMappings)
      + if !ShouldInstallBmad(opts, Detect(fs)) then {}
        else (if Exists(fs, AgentsDir(BmadDir)) then Dests(InstallCustomize) else {}) + {ActivePath}
  }

  /** Step 2 does not touch a file outside the command table, and removes
      nothing. */
  lemma CommandStepFrame(fs: Fs, env: Env, t: Templates, p: string)
    requires p !in Dests(CommandMappings)
    ensures FileAt(CommandStep(fs, env, t), p) == FileAt(fs, p)
    ensures Grows(fs, CommandStep(fs, env, t))
  {
  }

  /** Paths that are not prefixes of any core or command destination, nor of
      the command directory, exist after steps 1 and 2 exactly when they
      existed before. */
  lemma BeforeBmadKeepsExistence(fs: Fs, env: Env, t: Templates, p: string)
    requires !Covers(CoreMappings, p) && !Covers(CommandMappings, p) && !(p <= CommandsDir)
    ensures Exists(CommandStep(CoreStep(fs, t), env, t), p) <==> Exists(fs, p)
  {
  }

  /** Steps 1 and 2 do not touch a path outside their two tables, and
      remove nothing. */
  lemma BeforeBmadFrame(fs: Fs, env: Env, t: Templates, p: string)
    requires p !in Dests(CoreMappings) && p !in Dests(CommandMappings)
    ensures FileAt(CommandStep(CoreStep(fs, t), env, t), p) == FileAt(fs, p)
    ensures Grows(fs, CommandStep(CoreStep(fs, t), env, t))
  {
    CommandStepFrame(CoreStep(fs, t), env, t, p);
  }

  /** Taking the snapshot once, before any write, decides the framework step
      as a snapshot taken just before that step would: steps 1 and 2 never
      create the framework directory or its agents directory. */
  lemma BmadSnapshotStable(fs: Fs, env: Env, t: Templates)
    ensures Detect(CommandStep(CoreStep(fs, t), env, t)).hasBmad == Detect(fs).hasBmad
    ensures Exists(CommandStep(CoreStep(fs, t), env, t), AgentsDir(BmadDir)) == Exists(fs, AgentsDir(BmadDir))
  {
    FrameworkDirsUntouched(BmadDir);
    BeforeBmadKeepsExistence(fs, env, t, BmadDir);
    BeforeBmadKeepsExistence(fs, env, t, AgentsDir(BmadDir));
  }

  /** Step 2 removes nothing. */
  lemma CommandStepGrows(fs: Fs, env: Env, t: Templates)
    ensures Grows(fs, CommandStep(fs, env, t))
  {
    var withDir := if env.hasClaudeCommands then fs else MakeDirs(fs, CommandsDir);
    assert Grows(fs, withDir);
  }

  /** Step 3 removes nothing. */
  lemma BmadStepGrows(fs: Fs, t: Templates)
    ensures Grows(fs, BmadStep(fs, t))
  {
    var c := CustomizeStep(fs, t);
    var withMemory := if Exists(c, MemoryDir) then c else MakeDirs(c, MemoryDir);
    assert Grows(fs, c) && Grows(c, withMemory);
  }

  /** Step 3 touches no file but the sidecar file and, when the agents
      directory exists, the customize files; it removes nothing. */
  lemma BmadStepFrame(fs: Fs, t: Templates, p: string)
    requires p != ActivePath
    requires p !in Dests(InstallCustomize) || !Exists(fs, AgentsDir(BmadDir))
    ensures FileAt(BmadStep(fs, t), p) == FileAt(fs, p)
    ensures Grows(fs, BmadStep(fs, t))
  {
  }

  /** The four groups of files the installer writes have no file in
      common: they lie in four different directories. */
  lemma ManagedPathsDistinct()
    ensures Dests(CoreMappings) !! Dests(CommandMappings)
    ensures Dests(CoreMappings) !! Dests(InstallCustomize)
    ensures Dests(CommandMappings) !! Dests(InstallCustomize)
    ensures ActivePath !in Dests(CoreMappings) + Dests(CommandMappings) + Dests(InstallCustomize)
  {
    CoreInDir();
    CommandsInDir();
    CustomizeInDir(BmadDir, KeepIfContains("agreement"));
    var agents := AgentsDir(BmadDir) + "/";
    assert agents[0] == '_';
    assert ActivePath[0] == '_';
    forall p | p in Dests(CoreMappings) ensures p !in Dests(CommandMappings) && p !in Dests(InstallCustomize) && p != ActivePath {
      assert p[0] == '.' && p[1] == 'a';
    }
    SidecarApart(KeepIfContains("agreement"));
    forall p | p in Dests(InstallCustomize) ensures p !in Dests(CommandMappings) {
      CustomizeNotCommand(BmadDir, KeepIfContains("agreement"), p);
    }
  }

  /** Install writes no file outside its targets, and removes nothing. */
  lemma InstallFrame(fs: Fs, opts: Options, confirmed: bool, t: Templates, p: string)
    requires p !in InstallTargets(fs, opts, confirmed)
    ensures FileAt(InstallResult(fs, opts, confirmed, t), p) == FileAt(fs, p)
    ensures Grows(fs, InstallResult(fs, opts, confirmed, t))
    ensures (forall q :: q in InstallTargets(fs, opts, confirmed) ==> !(p <= q)) ==>
              (Exists(InstallResult(fs, opts, confirmed, t), p) <==> Exists(fs, p))
  {
    var env := Detect(fs);
    if !Declined(fs, opts, confirmed) {
      BeforeBmadFrame(fs, env, t, p);
      if ShouldInstallBmad(opts, env) {
        BmadSnapshotStable(fs, env, t);
        BmadStepFrame(CommandStep(CoreStep(fs, t), env, t), t, p);
      }
    }
    if forall q :: q in InstallTargets(fs, opts, confirmed) ==> !(p <= q) {
      InstallKeepsExistence(fs, opts, confirmed, t, p);
    }
  }

  /** Step 3 creates no directory but those on the way to the sidecar file
      and, when the agents directory exists, to the customize files. */
  lemma BmadStepKeepsExistence(fs: Fs, t: Templates, p: string)
    requires !(p <= ActivePath)
    requires !Covers(InstallCustomize, p) || !Exists(fs, AgentsDir(BmadDir))
    ensures Exists(BmadStep(fs, t), p) <==> Exists(fs, p)
  {
    SidecarFrame(CustomizeStep(fs, t), t, p);
  }

  /** An install creates no file or directory that is not on the way to one
      of its targets. */
  lemma InstallKeepsExistence(fs: Fs, opts: Options, confirmed: bool, t: Templates, p: string)
    requires forall q :: q in InstallTargets(fs, opts, confirmed) ==> !(p <= q)
    ensures Exists(InstallResult(fs, opts, confirmed, t), p) <==> Exists(fs, p)
  {
    var env := Detect(fs);
    if !Declined(fs, opts, confirmed) {
      var targets := InstallTargets(fs, opts, confirmed);
      assert Dests(CoreMappings) <= targets && Dests(CommandMappings) <= targets;
      NotCovers(CoreMappings, p);
      NotCovers(CommandMappings, p);
      if p <= CommandsDir {
        CommandsInDir();
        assert CreatePath in Dests(CommandMappings) by {
          assert CommandMappings[0].dest == CreatePath;
        }
        PrefixTrans(CommandsDir, CommandsDir + "/", CreatePath);
        PrefixTrans(p, CommandsDir, CreatePath);
      }
      BeforeBmadKeepsExistence(fs, env, t, p);
      if ShouldInstallBmad(opts, env) {
        BmadSnapshotStable(fs, env, t);
        if Exists(fs, AgentsDir(BmadDir)) {
          NotCovers(InstallCustomize, p);
        }
        BmadStepKeepsExistence(CommandStep(CoreStep(fs, t), env, t), t, p);
      }
    }
  }

  /** Without the framework step (skipped, or neither forced nor detected
      before any write), neither the sidecar file nor a customize file
      changes. */
  lemma InstallWithoutBmad(fs: Fs, flags: seq<string>, confirmed: bool, t: Templates)
    requires "--skip-bmad" in flags || ("--force-bmad" !in flags && !Exists(fs, BmadDir))
    ensures var r := InstallResult(fs, ParseFlags(flags), confirmed, t);
      && FileAt(r, ActivePath) == FileAt(fs, ActivePath)
      && forall i :: 0 <= i < |InstallCustomize| ==> FileAt(r, InstallCustomize[i].dest) == FileAt(fs, InstallCustomize[i].dest)
  {
    var opts := ParseFlags(flags);
    ManagedPathsDistinct();
    InstallFrame(fs, opts, confirmed, t, ActivePath);
    forall i | 0 <= i < |InstallCustomize|
      ensures FileAt(InstallResult(fs, opts, confirmed, t), InstallCustomize[i].dest) == FileAt(fs, InstallCustomize[i].dest)
    {
      CustomizeFileApart(i);
      InstallFrame(fs, opts, confirmed, t, InstallCustomize[i].dest);
    }
  }

  /** Each core file ends up as its rule decides from the state before the
      run: the template is always copied, an index that lists agreements
      is kept, an existing config is kept. */
  lemma InstallCoreFiles(fs: Fs, opts: Options, confirmed: bool, t: Templates, i: int)
    requires !Declined(fs, opts, confirmed) && 0 <= i < |CoreMappings|
    ensures FileAt(InstallResult(fs, opts, confirmed, t), CoreMappings[i].dest)
         == Outcome(CoreMappings[i], t, FileAt(fs, CoreMappings[i].dest), Exists(fs, CoreMappings[i].dest))
  {
    var d := CoreMappings[i].dest;
    var env := Detect(fs);
    var core := CoreStep(fs, t);
    CoreIndependent();
    SyncAllAt(fs, CoreMappings, t, i);
    assert d in Dests(CoreMappings);
    ManagedPathsDistinct();
    CommandStepFrame(core, env, t, d);
    if ShouldInstallBmad(opts, env) {
      BmadStepFrame(CommandStep(core, env, t), t, d);
    }
  }

  /** An index that already lists agreements is never changed, whatever the
      flags and the answer; otherwise a confirmed run leaves the template. */
  lemma InstallIndex(fs: Fs, opts: Options, confirmed: bool, t: Templates)
    ensures IndexPath in fs.files && Contains(fs.files[IndexPath], "feature_id:")
            ==> FileAt(InstallResult(fs, opts, confirmed, t), IndexPath) == FileAt(fs, IndexPath)
    ensures !Declined(fs, opts, confirmed)
            && !(IndexPath in fs.files && Contains(fs.files[IndexPath], "feature_id:"))
            ==> FileAt(InstallResult(fs, opts, confirmed, t), IndexPath) == Some(t(CoreIndex))
  {
    if !Declined(fs, opts, confirmed) {
      InstallCoreFiles(fs, opts, confirmed, t, 1);
    }
  }

  /** An existing config is never changed; a confirmed run creates a missing
      one from the template. */
  lemma InstallConfig(fs: Fs, opts: Options, confirmed: bool, t: Templates)
    ensures Exists(fs, ConfigPath) ==> FileAt(InstallResult(fs, opts, confirmed, t), ConfigPath) == FileAt(fs, ConfigPath)
    ensures !Declined(fs, opts, confirmed) && !Exists(fs, ConfigPath)
            ==> FileAt(InstallResult(fs, opts, confirmed, t), ConfigPath) == Some(t(CoreConfig))
  {
    if !Declined(fs, opts, confirmed) {
      InstallCoreFiles(fs, opts, confirmed, t, 3);
    }
  }

  /** Over an existing installation, without `--yes`, an answer that is not
      a yes stops the run before anything is written. */
  lemma InstallDeclined(fs: Fs, flags: seq<string>, answer: string, t: Templates)
    requires Exists(fs, AgreementsDir) && "--yes" !in flags && !Affirmative(answer)
    ensures InstallResult(fs, ParseFlags(flags), Affirmative(answer), t) == fs
  {
  }

  /** The answer only matters over an existing installation without
      `--yes`: otherwise no prompt is shown and the run is the same
      whatever is typed. */
  lemma InstallPromptGate(fs: Fs, opts: Options, first: bool, second: bool, t: Templates)
    requires opts.autoYes || !Exists(fs, AgreementsDir)
    ensures InstallResult(fs, opts, first, t) == InstallResult(fs, opts, second, t)
    ensures !Declined(fs, opts, first)
  {
  }

  /** What a completed install leaves behind: every core, command and
      framework file settled under its rule, and the directories the later
      steps check for in place. */
  ghost predicate Installed(fs: Fs, opts: Options, t: Templates) {
    && AllSettled(fs, CoreMappings, t)
    && AllSettled(fs, CommandMappings, t)
    && Exists(fs, CommandsDir)
    && (ShouldInstallBmad(opts, Detect(fs)) ==>
          && Exists(fs, MemoryDir)
          && Settled(fs, ActiveMapping, t)
          && (Exists(fs, AgentsDir(BmadDir)) ==> AllSettled(fs, InstallCustomize, t)))
  }

  /** Step 2 keeps a settled table settled when none of the table's files
      is a command file. */
  lemma CommandStepKeeps(fs: Fs, env: Env, ms: seq<Mapping>, t: Templates)
    requires AllSettled(fs, ms, t) && Dests(ms) !! Dests(CommandMappings)
    ensures AllSettled(CommandStep(fs, env, t), ms, t)
  {
    forall p | p in Dests(ms) ensures FileAt(CommandStep(fs, env, t), p) == FileAt(fs, p) {
      CommandStepFrame(fs, env, t, p);
    }
    CommandStepGrows(fs, env, t);
    AllSettledStable(fs, CommandStep(fs, env, t), ms, t);
  }

  /** Step 2 settles the command table and leaves the command directory in
      place, given a snapshot that saw it only when it was there. */
  lemma CommandStepSettles(fs: Fs, env: Env, t: Templates)
    requires env.hasClaudeCommands ==> Exists(fs, CommandsDir)
    ensures AllSettled(CommandStep(fs, env, t), CommandMappings, t)
    ensures Exists(CommandStep(fs, env, t), CommandsDir)
  {
    var withDir := if env.hasClaudeCommands then fs else MakeDirs(fs, CommandsDir);
    CommandsIndependent();
    SyncAllSettles(withDir, CommandMappings, t);
    GrowsExists(withDir, CommandStep(fs, env, t), CommandsDir);
  }

  /** Steps 1 and 2 settle both of their tables and leave the command
      directory in place. */
  lemma BeforeBmadEstablishes(fs: Fs, t: Templates)
    ensures AllSettled(CommandStep(CoreStep(fs, t), Detect(fs), t), CoreMappings, t)
    ensures AllSettled(CommandStep(CoreStep(fs, t), Detect(fs), t), CommandMappings, t)
    ensures Exists(CommandStep(CoreStep(fs, t), Detect(fs), t), CommandsDir)
  {
    var core := CoreStep(fs, t);
    CoreIndependent();
    ManagedPathsDistinct();
    SyncAllSettles(fs, CoreMappings, t);
    CommandStepKeeps(core, Detect(fs), CoreMappings, t);
    GrowsExists(fs, core, CommandsDir);
    CommandStepSettles(core, Detect(fs), t);
  }

  /** The sidecar step touches no other file, removes nothing, and creates
      no path that is not a prefix of the sidecar file. */
  lemma SidecarFrame(fs: Fs, t: Templates, p: string)
    requires p != ActivePath
    ensures FileAt(SidecarStep(fs, t), p) == FileAt(fs, p)
    ensures Grows(fs, SidecarStep(fs, t))
    ensures !(p <= ActivePath) ==> (Exists(SidecarStep(fs, t), p) <==> Exists(fs, p))
  {
    if !Exists(fs, MemoryDir) && p <= MemoryDir {
      PrefixTrans(p, MemoryDir, ActivePath);
    }
  }

  /** The framework step leaves its sidecar file settled, in a directory that
      exists. */
  lemma BmadStepSettles(fs: Fs, t: Templates)
    ensures Exists(BmadStep(fs, t), MemoryDir)
    ensures Settled(BmadStep(fs, t), ActiveMapping, t)
  {
    var c := CustomizeStep(fs, t);
    var withMemory := if Exists(c, MemoryDir) then c else MakeDirs(c, MemoryDir);
    GrowsExists(withMemory, BmadStep(fs, t), MemoryDir);
    SyncedSettles(withMemory, ActiveMapping, t);
  }

  /** The framework step creates the agents directory only if it was
      already there: the sidecar directory and file lie elsewhere. */
  lemma BmadStepAgents(fs: Fs, t: Templates)
    ensures Exists(BmadStep(fs, t), AgentsDir(BmadDir)) ==> Exists(fs, AgentsDir(BmadDir))
  {
    AgentsDirNotUnderMemory();
    SidecarFrame(CustomizeStep(fs, t), t, AgentsDir(BmadDir));
  }

  /** The framework step leaves its customize files settled when the agents
      directory exists after it. */
  lemma BmadStepSettlesCustomize(fs: Fs, t: Templates)
    ensures Exists(BmadStep(fs, t), AgentsDir(BmadDir)) ==> AllSettled(BmadStep(fs, t), InstallCustomize, t)
  {
    BmadStepAgents(fs, t);
    if Exists(fs, AgentsDir(BmadDir)) {
      var c := CustomizeStep(fs, t);
      CustomizeIndependent(BmadDir, KeepIfContains("agreement"));
      SyncAllSettles(fs, InstallCustomize, t);
      SidecarApart(KeepIfContains("agreement"));
      forall p | p in Dests(InstallCustomize) ensures FileAt(BmadStep(fs, t), p) == FileAt(c, p) {
        SidecarFrame(c, t, p);
      }
      SidecarFrame(c, t, MemoryDir);
      AllSettledStable(c, BmadStep(fs, t), InstallCustomize, t);
    }
  }

  /** The framework step keeps a settled table settled when none of the
      table's files is its own. */
  lemma BmadStepKeeps(fs: Fs, ms: seq<Mapping>, t: Templates)
    requires AllSettled(fs, ms, t)
    requires ActivePath !in Dests(ms) && Dests(ms) !! Dests(InstallCustomize)
    ensures AllSettled(BmadStep(fs, t), ms, t)
  {
    forall p | p in Dests(ms) ensures FileAt(BmadStep(fs, t), p) == FileAt(fs, p) {
      BmadStepFrame(fs, t, p);
    }
    BmadStepGrows(fs, t);
    AllSettledStable(fs, BmadStep(fs, t), ms, t);
  }

  /** The framework step keeps the core and command tables settled and the
      command directory in place. */
  lemma BmadStepKeepsTables(fs: Fs, t: Templates)
    requires AllSettled(fs, CoreMappings, t) && AllSettled(fs, CommandMappings, t) && Exists(fs, CommandsDir)
    ensures AllSettled(BmadStep(fs, t), CoreMappings, t)
    ensures AllSettled(BmadStep(fs, t), CommandMappings, t)
    ensures Exists(BmadStep(fs, t), CommandsDir)
  {
    ManagedPathsDistinct();
    BmadStepKeeps(fs, CoreMappings, t);
    BmadStepKeeps(fs, CommandMappings, t);
    BmadStepGrows(fs, t);
    GrowsExists(fs, BmadStep(fs, t), CommandsDir);
  }

  /** The framework step, applied once steps 1 and 2 are settled, leaves
      everything the installed state asks for. */
  lemma BmadStepEstablishes(fs: Fs, t: Templates)
    requires AllSettled(fs, CoreMappings, t) && AllSettled(fs, CommandMappings, t) && Exists(fs, CommandsDir)
    ensures AllSettled(BmadStep(fs, t), CoreMappings, t)
    ensures AllSettled(BmadStep(fs, t), CommandMappings, t)
    ensures Exists(BmadStep(fs, t), CommandsDir)
    ensures Exists(BmadStep(fs, t), MemoryDir)
    ensures Settled(BmadStep(fs, t), ActiveMapping, t)
    ensures Exists(BmadStep(fs, t), AgentsDir(BmadDir)) ==> AllSettled(BmadStep(fs, t), InstallCustomize, t)
  {
    BmadStepKeepsTables(fs, t);
    BmadStepSettles(fs, t);
    BmadStepSettlesCustomize(fs, t);
  }

  /** A confirmed install leaves an installed project. */
  lemma InstallEstablishes(fs: Fs, opts: Options, confirmed: bool, t: Templates)
    requires !Declined(fs, opts, confirmed)
    ensures Installed(InstallResult(fs, opts, confirmed, t), opts, t)
  {
    var env := Detect(fs);
    var cmds := CommandStep(CoreStep(fs, t), env, t);
    BeforeBmadEstablishes(fs, t);
    if ShouldInstallBmad(opts, env) {
      BmadStepEstablishes(cmds, t);
    } else {
      BmadSnapshotStable(fs, env, t);
    }
  }

  /** A confirmed install of an installed project changes nothing. */
  lemma InstalledFixed(fs: Fs, opts: Options, confirmed: bool, t: Templates)
    requires Installed(fs, opts, t) && !Declined(fs, opts, confirmed)
    ensures InstallResult(fs, opts, confirmed, t) == fs
  {
    SyncAllFixed(fs, CoreMappings, t);
    SyncAllFixed(fs, CommandMappings, t);
    if ShouldInstallBmad(opts, Detect(fs)) {
      if Exists(fs, AgentsDir(BmadDir)) {
        SyncAllFixed(fs, InstallCustomize, t);
      }
      SettledFixed(fs, ActiveMapping, t);
    }
  }

  /** Installing twice is installing once, provided both runs are confirmed
      (by `--yes`, or by a yes to both prompts). */
  lemma InstallIdempotent(fs: Fs, opts: Options, first: bool, second: bool, t: Templates)
    requires opts.autoYes || (first && second)
    ensures InstallResult(InstallResult(fs, opts, first, t), opts, second, t) == InstallResult(fs, opts, first, t)
  {
    InstallEstablishes(fs, opts, first, t);
    InstalledFixed(InstallResult(fs, opts, first, t), opts, second, t);
  }

  /** In an installed project the template, the agreement document and the
      four commands equal their templates, and their directories exist. */
  lemma InstalledWritten(fs: Fs, opts: Options, t: Templates)
    requires Installed(fs, opts, t)
    ensures ToolFilesCurrent(fs, t)
  {
    assert Settled(fs, CoreMappings[0], t) && Settled(fs, CoreMappings[2], t);
    forall i | 0 <= i < |CommandMappings|
      ensures FileAt(fs, CommandMappings[i].dest) == Some(t(CommandMappings[i].src))
      ensures Exists(fs, Parent(CommandMappings[i].dest))
    {
      assert Settled(fs, CommandMappings[i], t);
      assert CommandMappings[i].policy == Overwrite;
    }
  }

  /** The template, the agreement document and the four commands equal their
      templates after a confirmed run, and their directories exist. */
  lemma InstallAlwaysWritten(fs: Fs, opts: Options, confirmed: bool, t: Templates)
    requires !Declined(fs, opts, confirmed)
    ensures ToolFilesCurrent(InstallResult(fs, opts, confirmed, t), t)
  {
    InstallEstablishes(fs, opts, confirmed, t);
    InstalledWritten(InstallResult(fs, opts, confirmed, t), opts, t);
  }

  /** With the framework step, the run is steps 1, 2 and 3 in order. */
  lemma InstallWithBmad(fs: Fs, opts: Options, confirmed: bool, t: Templates)
    requires !Declined(fs, opts, confirmed) && ShouldInstallBmad(opts, Detect(fs))
    ensures InstallResult(fs, opts, confirmed, t) == BmadStep(CommandStep(CoreStep(fs, t), Detect(fs), t), t)
  {
  }

  /** With the framework step, the sidecar file is the template and its
      directory exists, whether or not the agents directory is there. */
  lemma InstallSidecar(fs: Fs, opts: Options, confirmed: bool, t: Templates)
    requires !Declined(fs, opts, confirmed)
    requires ShouldInstallBmad(opts, Detect(fs))
    ensures FileAt(InstallResult(fs, opts, confirmed, t), ActivePath) == Some(t(ActiveAgreements))
    ensures Exists(InstallResult(fs, opts, confirmed, t), MemoryDir)
  {
    InstallWithBmad(fs, opts, confirmed, t);
    BmadStepSettles(CommandStep(CoreStep(fs, t), Detect(fs), t), t);
  }

  /** With the framework step, each customize file is left to its rule when
      the agents directory exists, and untouched when it does not. */
  lemma InstallCustomizeFiles(fs: Fs, opts: Options, confirmed: bool, t: Templates, i: int)
    requires !Declined(fs, opts, confirmed)
    requires ShouldInstallBmad(opts, Detect(fs))
    requires 0 <= i < |InstallCustomize|
    ensures FileAt(InstallResult(fs, opts, confirmed, t), InstallCustomize[i].dest)
         == if Exists(fs, AgentsDir(BmadDir))
            then Outcome(InstallCustomize[i], t, FileAt(fs, InstallCustomize[i].dest), Exists(fs, InstallCustomize[i].dest))
            else FileAt(fs, InstallCustomize[i].dest)
  {
    var env := Detect(fs);
    var cmds := CommandStep(CoreStep(fs, t), env, t);
    InstallWithBmad(fs, opts, confirmed, t);
    CustomizeFileApart(i);
    BmadSnapshotStable(fs, env, t);
    BeforeBmadFrame(fs, env, t, InstallCustomize[i].dest);
    BmadCustomizeFrom(fs, cmds, t, i);
  }

  /** Step 3 applied to `cmds` treats a customize file as it would in `fs`
      when the two agree on that file and on the agents directory. */
  lemma BmadCustomizeFrom(fs: Fs, cmds: Fs, t: Templates, i: int)
    requires 0 <= i < |InstallCustomize|
    requires FileAt(cmds, InstallCustomize[i].dest) == FileAt(fs, InstallCustomize[i].dest)
    requires Exists(cmds, AgentsDir(BmadDir)) == Exists(fs, AgentsDir(BmadDir))
    ensures FileAt(BmadStep(cmds, t), InstallCustomize[i].dest)
         == if Exists(fs, AgentsDir(BmadDir))
            then Outcome(InstallCustomize[i], t, FileAt(fs, InstallCustomize[i].dest), Exists(fs, InstallCustomize[i].dest))
            else FileAt(fs, InstallCustomize[i].dest)
  {
    var d := InstallCustomize[i].dest;
    BmadCustomizeAt(cmds, t, i);
    OutcomeIgnoresExistence(InstallCustomize[i], t, FileAt(fs, d), Exists(cmds, d), Exists(fs, d));
  }

  /** A customize file is none of the installer's other files. */
  lemma CustomizeFileApart(i: int)
    requires 0 <= i < |InstallCustomize|
    ensures InstallCustomize[i].dest !in Dests(CoreMappings)
    ensures InstallCustomize[i].dest !in Dests(CommandMappings)
    ensures InstallCustomize[i].dest != ActivePath
  {
    ManagedPathsDistinct();
    assert InstallCustomize[i].dest in Dests(InstallCustomize);
  }

  /** Step 3 leaves each customize file to its rule when the agents
      directory exists, and untouched otherwise. */
  lemma BmadCustomizeAt(fs: Fs, t: Templates, i: int)
    requires 0 <= i < |InstallCustomize|
    ensures FileAt(BmadStep(fs, t), InstallCustomize[i].dest)
         == if Exists(fs, AgentsDir(BmadDir))
            then Outcome(InstallCustomize[i], t, FileAt(fs, InstallCustomize[i].dest), Exists(fs, InstallCustomize[i].dest))
            else FileAt(fs, InstallCustomize[i].dest)
  {
    CustomizeFileApart(i);
    SidecarFrame(CustomizeStep(fs, t), t, InstallCustomize[i].dest);
    if Exists(fs, AgentsDir(BmadDir)) {
      CustomizeIndependent(BmadDir, KeepIfContains("agreement"));
      SyncAllAt(fs, InstallCustomize, t, i);
    }
  }

  /** An install keeps a directory tree well formed: every directory on the
      way to a written file or a created directory exists afterwards. */
  lemma InstallWellFormed(fs: Fs, opts: Options, confirmed: bool, t: Templates)
    requires WellFormed(fs)
    ensures WellFormed(InstallResult(fs, opts, confirmed, t))
  {
    if !Declined(fs, opts, confirmed) {
      var env := Detect(fs);
      var core := CoreStep(fs, t);
      SyncAllWellFormed(fs, CoreMappings, t);
      var withDir := if env.hasClaudeCommands then core else MakeDirs(core, CommandsDir);
      if !env.hasClaudeCommands {
        MakeDirsWellFormed(core, CommandsDir);
      }
      SyncAllWellFormed(withDir, CommandMappings, t);
      var cmds := CommandStep(core, env, t);
      if ShouldInstallBmad(opts, env) {
        var c := CustomizeStep(cmds, t);
        if Exists(cmds, AgentsDir(BmadDir)) {
          SyncAllWellFormed(cmds, InstallCustomize, t);
        }
        var withMemory := if Exists(c, MemoryDir) then c else MakeDirs(c, MemoryDir);
        if !Exists(c, MemoryDir) {
          MakeDirsWellFormed(c, MemoryDir);
        }
        SyncedWellFormed(withMemory, ActiveMapping, t);
      }
    }
  }

  /** With the framework step, `_bmad` and every directory on the way to the
      sidecar file exist afterwards, even when `_bmad` was missing and the
      step was forced. */
  lemma InstallFrameworkDirs(fs: Fs, opts: Options, confirmed: bool, t: Templates)
    requires WellFormed(fs) && !Declined(fs, opts, confirmed) && ShouldInstallBmad(opts, Detect(fs))
    ensures Exists(InstallResult(fs, opts, confirmed, t), BmadDir)
    ensures ClosedAt(InstallResult(fs, opts, confirmed, t), ActivePath)
  {
    var r := InstallResult(fs, opts, confirmed, t);
    InstallWellFormed(fs, opts, confirmed, t);
    InstallSidecar(fs, opts, confirmed, t);
    SidecarUnderBmad();
    WellFormedExists(r, ActivePath, 5);
  }

  /** Step 2 on the workspace. */
  method InstallCommands(w: Workspace, env: Env, t: Templates)
    modifies w
    ensures w.State() == CommandStep(old(w.State()), env, t)
  {
    if !env.hasClaudeCommands {
      w.MakeDirectory(CommandsDir);
    }
    SyncEach(w, CommandMappings, t);
  }

  /** Step 3 on the workspace. */
  method InstallBmad(w: Workspace, t: Templates)
    modifies w
    ensures w.State() == BmadStep(old(w.State()), t)
  {
    if Exists(w.State(), AgentsDir(BmadDir)) {
      SyncEach(w, InstallCustomize, t);
    }
    if !Exists(w.State(), MemoryDir) {
      w.MakeDirectory(MemoryDir);
    }
    CopyTemplate(w, t(ActiveAgreements), ActivePath);
  }

  /** `install(flags)`, run in the workspace with `answer` as what the user
      types at the prompt: the prompt gate, then the three steps. */
  method Install(w: Workspace, flags: seq<string>, answer: string, t: Templates)
    modifies w
    ensures w.State() == InstallResult(old(w.State()), ParseFlags(flags), Affirmative(answer), t)
  {
    ghost var fs := w.State();
    var opts := ParseFlags(flags);
    var env := Detect(w.State());
    if env.hasAgreements && !opts.autoYes {
      var normalized := NormalizeAnswer(answer);
      if normalized != "y" && normalized != "yes" {
        assert Declined(fs, opts, Affirmative(answer));
        return;
      }
    }
    assert !Declined(fs, opts, Affirmative(answer));
    SyncEach(w, CoreMappings, t);
    InstallCommands(w, env, t);
    if ShouldInstallBmad(opts, env) {
      InstallBmad(w, t);
    }
  }
}
