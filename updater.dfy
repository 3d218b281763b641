/** `agreement-system update`: refuse to run without an installation, then
    overwrite the command definitions, the agreement document, the agreement
    template and, when the agent framework's customisation directory is
    there, its two customize files. Nothing else is written. */
module Updater {
  import opened FileSystem
  import opened TemplateSync
  import opened Layout

  /** How a command ends: its exit status and the project directory it
      leaves. */
  datatype Completion = Completion(code: int, fs: Fs)

  /** The framework directory the updater works on: `_bmad` when it exists,
      else the legacy `.bmad` when that exists, else none. */
  function ResolveBmadDir(fs: Fs): (r: Option<string>)
    ensures r.Some? ==> (r.value == BmadDir || r.value == LegacyBmadDir) && Exists(fs, r.value)
    ensures r.None? <==> !Exists(fs, BmadDir) && !Exists(fs, LegacyBmadDir)
    ensures Exists(fs, BmadDir) ==> r == Some(BmadDir)
  {
    if Exists(fs, BmadDir) then Some(BmadDir)
    else if Exists(fs, LegacyBmadDir) then Some(LegacyBmadDir)
    else None
  }

  /** The resolution depends on the existence of the two directories alone. */
  lemma ResolveStable(fs: Fs, fs': Fs)
    requires Exists(fs', BmadDir) == Exists(fs, BmadDir)
    requires Exists(fs', LegacyBmadDir) == Exists(fs, LegacyBmadDir)
    ensures ResolveBmadDir(fs') == ResolveBmadDir(fs)
  {
  }

  /** The whitelist: the four commands, then the document, then the
      template, each copied without a check. */
  function WhitelistStep(fs: Fs, t: Templates): Fs {
    Synced(Synced(SyncAll(fs, CommandMappings, t), DocMapping, t), TplMapping, t)
  }

  /** The customize files of the resolved framework directory, overwritten
      when its agents directory exists. */
  function CustomizeStep(fs: Fs, t: Templates): Fs {
    match ResolveBmadDir(fs)
    case None => fs
    case Some(d) => if Exists(fs, AgentsDir(d)) then SyncAll(fs, CustomizeMappings(d, Overwrite), t) else fs
  }

  /** `update`: status 1 and no change without `.agreements`; otherwise the
      whitelist, then the customize files, resolved after the whitelist is
      written. */
  function UpdateResult(fs: Fs, t: Templates): Completion {
    if !Exists(fs, AgreementsDir) then Completion(1, fs)
    else Completion(0, CustomizeStep(WhitelistStep(fs, t), t))
  }

  /** The customize files an update writes, decided on the state before the
      run. */
  function CustomizeTargets(fs: Fs): set<string> {
    match ResolveBmadDir(fs)
    case None => {}
    case Some(d) => if Exists(fs, AgentsDir(d)) then Dests(CustomizeMappings(d, Overwrite)) else {}
  }

  /** Every file an update may write. */
  function UpdateTargets(fs: Fs): set<string> {
    if !Exists(fs, AgreementsDir) then {}
    else Dests(CommandMappings) + {DocPath, TplPath} + CustomizeTargets(fs)
  }

  lemma WhitelistWellFormed(fs: Fs, t: Templates)
    requires WellFormed(fs)
    ensures WellFormed(WhitelistStep(fs, t))
  {
    var c := SyncAll(fs, CommandMappings, t);
    SyncAllWellFormed(fs, CommandMappings, t);
    SyncedWellFormed(c, DocMapping, t);
    SyncedWellFormed(Synced(c, DocMapping, t), TplMapping, t);
  }

  /** An update keeps a directory tree well formed. */
  lemma UpdateWellFormed(fs: Fs, t: Templates)
    requires WellFormed(fs)
    ensures WellFormed(UpdateResult(fs, t).fs)
  {
    WhitelistWellFormed(fs, t);
    var w := WhitelistStep(fs, t);
    match ResolveBmadDir(w)
    case None =>
    case Some(d) =>
      if Exists(w, AgentsDir(d)) {
        SyncAllWellFormed(w, CustomizeMappings(d, Overwrite), t);
      }
  }

  /** The update fails exactly when there is no installation, and a failed
      update changes nothing. */
  lemma UpdateExitCode(fs: Fs, t: Templates)
    ensures UpdateResult(fs, t).code == 0 || UpdateResult(fs, t).code == 1
    ensures UpdateResult(fs, t).code == 1 <==> !Exists(fs, AgreementsDir)
    ensures UpdateResult(fs, t).code == 1 ==> UpdateResult(fs, t).fs == fs
  {
  }

  /** The whitelist step touches no other file and removes nothing. */
  lemma WhitelistFrame(fs: Fs, t: Templates, p: string)
    requires p !in Dests(CommandMappings) && p != DocPath && p != TplPath
    ensures FileAt(WhitelistStep(fs, t), p) == FileAt(fs, p)
    ensures Grows(fs, WhitelistStep(fs, t))
  {
  }

  /** The whitelist step creates or removes no path that is not a prefix of
      one of its files. */
  lemma WhitelistKeepsExistence(fs: Fs, t: Templates, p: string)
    requires !Covers(CommandMappings, p) && !(p <= DocPath) && !(p <= TplPath)
    ensures Exists(WhitelistStep(fs, t), p) <==> Exists(fs, p)
  {
  }

  /** Writing the whitelist does not change which framework directory is
      resolved, nor whether its agents directory exists: resolving after
      the writes, as the updater does, is resolving before them. */
  lemma ResolveBeforeWrites(fs: Fs, t: Templates)
    ensures ResolveBmadDir(WhitelistStep(fs, t)) == ResolveBmadDir(fs)
    ensures forall d :: ResolveBmadDir(fs) == Some(d) ==>
              (Exists(WhitelistStep(fs, t), AgentsDir(d)) <==> Exists(fs, AgentsDir(d)))
  {
    FrameworkDirsUntouched(BmadDir);
    FrameworkDirsUntouched(LegacyBmadDir);
    WhitelistKeepsExistence(fs, t, BmadDir);
    WhitelistKeepsExistence(fs, t, LegacyBmadDir);
    WhitelistKeepsExistence(fs, t, AgentsDir(BmadDir));
    WhitelistKeepsExistence(fs, t, AgentsDir(LegacyBmadDir));
    ResolveStable(fs, WhitelistStep(fs, t));
  }

  /** The customize step touches no file but its targets and removes
      nothing. */
  lemma CustomizeStepFrame(fs: Fs, t: Templates, p: string)
    requires p !in CustomizeTargets(fs)
    ensures FileAt(CustomizeStep(fs, t), p) == FileAt(fs, p)
    ensures Grows(fs, CustomizeStep(fs, t))
  {
  }

  /** The customize files the updater writes are the ones it would pick
      before writing the whitelist. */
  lemma CustomizeTargetsBeforeWrites(fs: Fs, t: Templates)
    ensures CustomizeTargets(WhitelistStep(fs, t)) == CustomizeTargets(fs)
  {
    ResolveBeforeWrites(fs, t);
  }

  /** An update writes no file outside its targets, and removes nothing. */
  lemma UpdateFrame(fs: Fs, t: Templates, p: string)
    requires p !in UpdateTargets(fs)
    ensures FileAt(UpdateResult(fs, t).fs, p) == FileAt(fs, p)
    ensures Grows(fs, UpdateResult(fs, t).fs)
    ensures (forall q :: q in UpdateTargets(fs) ==> !(p <= q)) ==>
              (Exists(UpdateResult(fs, t).fs, p) <==> Exists(fs, p))
  {
    if Exists(fs, AgreementsDir) {
      WhitelistFrame(fs, t, p);
      CustomizeTargetsBeforeWrites(fs, t);
      CustomizeStepFrame(WhitelistStep(fs, t), t, p);
    }
    if forall q :: q in UpdateTargets(fs) ==> !(p <= q) {
      UpdateKeepsExistence(fs, t, p);
    }
  }

  /** The customize step creates no directory but those on the way to the
      customize files it writes. */
  lemma CustomizeKeepsExistence(fs: Fs, t: Templates, p: string)
    requires forall q :: q in CustomizeTargets(fs) ==> !(p <= q)
    ensures Exists(CustomizeStep(fs, t), p) <==> Exists(fs, p)
  {
    match ResolveBmadDir(fs)
    case None =>
    case Some(d) =>
      if Exists(fs, AgentsDir(d)) {
        assert CustomizeTargets(fs) == Dests(CustomizeMappings(d, Overwrite));
        NotCovers(CustomizeMappings(d, Overwrite), p);
      }
  }

  /** An update creates no file or directory that is not on the way to one
      of its targets. */
  lemma UpdateKeepsExistence(fs: Fs, t: Templates, p: string)
    requires forall q :: q in UpdateTargets(fs) ==> !(p <= q)
    ensures Exists(UpdateResult(fs, t).fs, p) <==> Exists(fs, p)
  {
    if Exists(fs, AgreementsDir) {
      var targets := UpdateTargets(fs);
      assert Dests(CommandMappings) <= targets && CustomizeTargets(fs) <= targets;
      assert DocPath in targets && TplPath in targets;
      NotCovers(CommandMappings, p);
      WhitelistKeepsExistence(fs, t, p);
      CustomizeTargetsBeforeWrites(fs, t);
      CustomizeKeepsExistence(WhitelistStep(fs, t), t, p);
    }
  }

  /** A file in the agents directory of `_bmad` is neither the document,
      the template, the sidecar file, nor under `.agreements/`. */
  lemma UnderBmadAgentsApart(p: string)
    requires AgentsDir(BmadDir) + "/" <= p
    ensures p != DocPath && p != TplPath && p != ActivePath && !(AgreementsDir + "/" <= p)
  {
    var a := AgentsDir(BmadDir) + "/";
    assert a[0] == '_' && a[7] == 'c';
    assert ActivePath[7] == 'm';
    PrefixDiffers(a, p, DocPath, 0);
    PrefixDiffers(a, p, TplPath, 0);
    PrefixDiffers(a, p, ActivePath, 7);
    PrefixDiffers(a, p, AgreementsDir + "/", 0);
  }

  /** The same for the agents directory of `.bmad`. */
  lemma UnderLegacyAgentsApart(p: string)
    requires AgentsDir(LegacyBmadDir) + "/" <= p
    ensures p != DocPath && p != TplPath && p != ActivePath && !(AgreementsDir + "/" <= p)
  {
    var a := AgentsDir(LegacyBmadDir) + "/";
    assert a[0] == '.' && a[1] == 'b';
    assert ActivePath[0] == '_';
    PrefixDiffers(a, p, DocPath, 1);
    PrefixDiffers(a, p, TplPath, 1);
    PrefixDiffers(a, p, ActivePath, 0);
    PrefixDiffers(a, p, AgreementsDir + "/", 1);
  }

  /** A customize file of either framework directory is none of the other
      files the tools manage, and does not lie under `.agreements/`. */
  lemma CustomizeApart(d: string, p: string)
    requires d == BmadDir || d == LegacyBmadDir
    requires p in Dests(CustomizeMappings(d, Overwrite))
    ensures p !in Dests(CommandMappings) && p != DocPath && p != TplPath && p != ActivePath
    ensures !(AgreementsDir + "/" <= p)
  {
    CustomizeNotCommand(d, Overwrite, p);
    CustomizeInDir(d, Overwrite);
    if d == BmadDir {
      UnderBmadAgentsApart(p);
    } else {
      UnderLegacyAgentsApart(p);
    }
  }

  /** No command file, nor any customize file, lies under `.agreements/`. */
  lemma UnderAgreementsNotManaged(p: string)
    requires AgreementsDir + "/" <= p
    ensures p !in Dests(CommandMappings)
    ensures p !in Dests(CustomizeMappings(BmadDir, Overwrite))
    ensures p !in Dests(CustomizeMappings(LegacyBmadDir, Overwrite))
  {
    CommandsInDir();
    assert p[1] == 'a';
    forall q | q in Dests(CommandMappings) ensures q != p {
      PrefixDiffers(CommandsDir + "/", q, p, 1);
    }
    if p in Dests(CustomizeMappings(BmadDir, Overwrite)) {
      CustomizeApart(BmadDir, p);
    }
    if p in Dests(CustomizeMappings(LegacyBmadDir, Overwrite)) {
      CustomizeApart(LegacyBmadDir, p);
    }
  }

  /** The user's data is never touched: every file under `.agreements/`
      other than the document and the template, the index and the config
      among them, and the sidecar memory file. */
  lemma UpdateKeepsUserData(fs: Fs, t: Templates)
    ensures forall p :: AgreementsDir + "/" <= p && p != DocPath && p != TplPath
              ==> FileAt(UpdateResult(fs, t).fs, p) == FileAt(fs, p)
    ensures FileAt(UpdateResult(fs, t).fs, IndexPath) == FileAt(fs, IndexPath)
    ensures FileAt(UpdateResult(fs, t).fs, ConfigPath) == FileAt(fs, ConfigPath)
    ensures FileAt(UpdateResult(fs, t).fs, ActivePath) == FileAt(fs, ActivePath)
  {
    forall p | AgreementsDir + "/" <= p && p != DocPath && p != TplPath
      ensures FileAt(UpdateResult(fs, t).fs, p) == FileAt(fs, p)
    {
      UnderAgreementsNotManaged(p);
      UpdateFrame(fs, t, p);
    }
    assert AgreementsDir + "/" <= IndexPath && AgreementsDir + "/" <= ConfigPath;
    SidecarApart(Overwrite);
    UpdateFrame(fs, t, ActivePath);
  }

  /** No command file is the document or the template. */
  lemma CommandsApart(p: string)
    requires p in Dests(CommandMappings)
    ensures p != DocPath && p != TplPath
  {
    CommandsInDir();
    PrefixDiffers(CommandsDir + "/", p, DocPath, 1);
    PrefixDiffers(CommandsDir + "/", p, TplPath, 1);
  }

  /** After the whitelist step every whitelisted file is settled. */
  lemma WhitelistSettles(fs: Fs, t: Templates)
    ensures AllSettled(WhitelistStep(fs, t), CommandMappings, t)
    ensures Settled(WhitelistStep(fs, t), DocMapping, t)
    ensures Settled(WhitelistStep(fs, t), TplMapping, t)
  {
    var cmds := SyncAll(fs, CommandMappings, t);
    var doc := Synced(cmds, DocMapping, t);
    var w := Synced(doc, TplMapping, t);
    CommandsIndependent();
    SyncAllSettles(fs, CommandMappings, t);
    SyncedSettles(cmds, DocMapping, t);
    SyncedSettles(doc, TplMapping, t);
    forall p | p in Dests(CommandMappings) ensures FileAt(w, p) == FileAt(cmds, p) {
      CommandsApart(p);
    }
    assert Grows(cmds, doc) && Grows(doc, w);
    AllSettledStable(cmds, w, CommandMappings, t);
    SettledStable(doc, w, DocMapping, t);
  }

  /** What a completed update leaves behind: an installation whose
      whitelisted files are settled and, when the framework's agents
      directory exists, whose customize files equal their templates. */
  ghost predicate Updated(fs: Fs, t: Templates) {
    && Exists(fs, AgreementsDir)
    && AllSettled(fs, CommandMappings, t)
    && Settled(fs, DocMapping, t)
    && Settled(fs, TplMapping, t)
    && forall d :: ResolveBmadDir(fs) == Some(d) && Exists(fs, AgentsDir(d))
         ==> AllSettled(fs, CustomizeMappings(d, Overwrite), t)
  }

  /** With `d` resolved, the customize step is the table of `d` when its
      agents directory exists and nothing otherwise. */
  lemma CustomizeStepAt(fs: Fs, t: Templates, d: string)
    requires ResolveBmadDir(fs) == Some(d)
    ensures CustomizeStep(fs, t)
         == if Exists(fs, AgentsDir(d)) then SyncAll(fs, CustomizeMappings(d, Overwrite), t) else fs
  {
  }

  /** Writing the customize files of `d` keeps `d` resolved. */
  lemma CustomizeKeepsResolution(fs: Fs, t: Templates, d: string)
    requires ResolveBmadDir(fs) == Some(d)
    ensures ResolveBmadDir(SyncAll(fs, CustomizeMappings(d, Overwrite), t)) == Some(d)
  {
    var ms := CustomizeMappings(d, Overwrite);
    var r := SyncAll(fs, ms, t);
    GrowsExists(fs, r, d);
    if d == LegacyBmadDir {
      CustomizeInDir(d, Overwrite);
      forall i | 0 <= i < |ms| ensures !(BmadDir <= ms[i].dest) {
        assert ms[i].dest in Dests(ms);
        PrefixDiffers(AgentsDir(d) + "/", ms[i].dest, BmadDir, 0);
      }
    }
  }

  /** The customize step settles its files and keeps the whitelist settled. */
  lemma CustomizeStepEstablishes(fs: Fs, t: Templates)
    requires Exists(fs, AgreementsDir)
    requires AllSettled(fs, CommandMappings, t) && Settled(fs, DocMapping, t) && Settled(fs, TplMapping, t)
    ensures Updated(CustomizeStep(fs, t), t)
  {
    if ResolveBmadDir(fs).Some? {
      var d := ResolveBmadDir(fs).value;
      CustomizeStepAt(fs, t, d);
      if Exists(fs, AgentsDir(d)) {
        var ms := CustomizeMappings(d, Overwrite);
        var r := SyncAll(fs, ms, t);
        CustomizeIndependent(d, Overwrite);
        SyncAllSettles(fs, ms, t);
        forall p | p in Dests(CommandMappings) ensures FileAt(r, p) == FileAt(fs, p) {
          if p in Dests(ms) {
            CustomizeApart(d, p);
          }
        }
        AllSettledStable(fs, r, CommandMappings, t);
        if DocPath in Dests(ms) {
          CustomizeApart(d, DocPath);
        }
        if TplPath in Dests(ms) {
          CustomizeApart(d, TplPath);
        }
        SettledStable(fs, r, DocMapping, t);
        SettledStable(fs, r, TplMapping, t);
        CustomizeKeepsResolution(fs, t, d);
        GrowsExists(fs, r, AgreementsDir);
      }
    }
  }

  /** The whitelist step removes nothing. */
  lemma WhitelistGrows(fs: Fs, t: Templates)
    ensures Grows(fs, WhitelistStep(fs, t))
  {
    var cmds := SyncAll(fs, CommandMappings, t);
    var doc := Synced(cmds, DocMapping, t);
    assert Grows(cmds, doc);
  }

  /** A successful update leaves an updated project. */
  lemma UpdateEstablishes(fs: Fs, t: Templates)
    requires Exists(fs, AgreementsDir)
    ensures Updated(UpdateResult(fs, t).fs, t)
  {
    var w := WhitelistStep(fs, t);
    WhitelistSettles(fs, t);
    WhitelistGrows(fs, t);
    GrowsExists(fs, w, AgreementsDir);
    CustomizeStepEstablishes(w, t);
  }

  /** Updating an updated project changes nothing. */
  lemma UpdatedFixed(fs: Fs, t: Templates)
    requires Updated(fs, t)
    ensures UpdateResult(fs, t) == Completion(0, fs)
  {
    SyncAllFixed(fs, CommandMappings, t);
    SettledFixed(fs, DocMapping, t);
    SettledFixed(fs, TplMapping, t);
    match ResolveBmadDir(fs)
    case None =>
    case Some(d) =>
      if Exists(fs, AgentsDir(d)) {
        SyncAllFixed(fs, CustomizeMappings(d, Overwrite), t);
      }
  }

  /** Updating twice is updating once. */
  lemma UpdateIdempotent(fs: Fs, t: Templates)
    ensures UpdateResult(UpdateResult(fs, t).fs, t) == UpdateResult(fs, t)
  {
    if Exists(fs, AgreementsDir) {
      UpdateEstablishes(fs, t);
      UpdatedFixed(UpdateResult(fs, t).fs, t);
    }
  }

  /** In an updated project the commands, the document and the template
      equal their templates, and their directories exist. */
  lemma UpdatedWritten(fs: Fs, t: Templates)
    requires Updated(fs, t)
    ensures ToolFilesCurrent(fs, t)
  {
    forall i | 0 <= i < |CommandMappings|
      ensures FileAt(fs, CommandMappings[i].dest) == Some(t(CommandMappings[i].src))
      ensures Exists(fs, Parent(CommandMappings[i].dest))
    {
      assert Settled(fs, CommandMappings[i], t);
      assert CommandMappings[i].policy == Overwrite;
    }
  }

  /** After a successful update the commands, the document and the template
      equal their templates, whatever they held before, and their
      directories exist. */
  lemma UpdateWritten(fs: Fs, t: Templates)
    requires Exists(fs, AgreementsDir)
    ensures ToolFilesCurrent(UpdateResult(fs, t).fs, t)
  {
    UpdateEstablishes(fs, t);
    UpdatedWritten(UpdateResult(fs, t).fs, t);
  }

  /** Each customize file of the resolved framework directory equals its
      template after a successful update when the agents directory exists,
      whatever it held before, and is untouched when it does not. */
  lemma UpdateCustomizeFiles(fs: Fs, t: Templates, d: string, i: int)
    requires Exists(fs, AgreementsDir) && ResolveBmadDir(fs) == Some(d) && 0 <= i < 2
    ensures var m := CustomizeMappings(d, Overwrite)[i];
      FileAt(UpdateResult(fs, t).fs, m.dest)
      == if Exists(fs, AgentsDir(d)) then Some(t(m.src)) else FileAt(fs, m.dest)
  {
    var ms := CustomizeMappings(d, Overwrite);
    var w := WhitelistStep(fs, t);
    ResolveBeforeWrites(fs, t);
    CustomizeStepAt(w, t, d);
    assert ms[i].dest in Dests(ms);
    CustomizeApart(d, ms[i].dest);
    WhitelistFrame(fs, t, ms[i].dest);
    if Exists(fs, AgentsDir(d)) {
      CustomizeIndependent(d, Overwrite);
      SyncAllAt(w, ms, t, i);
    }
  }

  /** `update(flags)` run in the workspace; it returns the exit status. The
      flags are accepted and have no effect. */
  method Update(w: Workspace, flags: seq<string>, t: Templates) returns (code: int)
    modifies w
    ensures code == UpdateResult(old(w.State()), t).code
    ensures w.State() == UpdateResult(old(w.State()), t).fs
  {
    if !Exists(w.State(), AgreementsDir) {
      return 1;
    }
    SyncEach(w, CommandMappings, t);
    CopyTemplate(w, t(CoreAgreementDoc), DocPath);
    CopyTemplate(w, t(CoreAgreementTpl), TplPath);
    var bmad := ResolveBmadDir(w.State());
    if bmad.Some? && Exists(w.State(), AgentsDir(bmad.value)) {
      SyncEach(w, CustomizeMappings(bmad.value, Overwrite), t);
    }
    return 0;
  }
}
