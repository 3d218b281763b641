/** The fixed paths the tool manages in a project and the mapping tables
    that say which template goes where, with the rule for a destination
    that already exists. */
module Layout {
  import opened FileSystem
  import opened TemplateSync

  const AgreementsDir := ".agreements"
  const TplPath := ".agreements/_templates/agreement.tpl.yaml"
  const IndexPath := ".agreements/index.yaml"
  const DocPath := ".agreements/agreement.md"
  const ConfigPath := ".agreements/config.yaml"

  const CommandsDir := ".claude/commands"
  const CreatePath := ".claude/commands/agreement.create.md"
  const SyncPath := ".claude/commands/agreement.sync.md"
  const CheckPath := ".claude/commands/agreement.check.md"
  const DoctorPath := ".claude/commands/agreement.doctor.md"

  const SpeckitDir := ".specify"
  /** The agent-framework directory under its current name and its legacy name. */
  const BmadDir := "_bmad"
  const LegacyBmadDir := ".bmad"
  const MemoryDir := "_bmad/_memory/agreements-sidecar"
  const ActivePath := MemoryDir + "/active-agreements.md"

  /** The framework's agent customisation directory under `bmad`. */
  function AgentsDir(bmad: string): string {
    bmad + "/_config/agents"
  }

  function MasterPath(bmad: string): string {
    AgentsDir(bmad) + "/core-bmad-master.customize.yaml"
  }

  function PmPath(bmad: string): string {
    AgentsDir(bmad) + "/bmm-pm.customize.yaml"
  }

  /** The installer's core table. The installer keeps an index that already
      lists agreements and a config that already exists; the other two are
      always copied. */
  const CoreMappings: seq<Mapping> := [
    Mapping(CoreAgreementTpl, TplPath, Overwrite),
    Mapping(CoreIndex, IndexPath, KeepIfContains("feature_id:")),
    Mapping(CoreAgreementDoc, DocPath, Overwrite),
    Mapping(CoreConfig, ConfigPath, KeepExisting)
  ]

  /** The four command definitions, always copied by both operations. */
  const CommandMappings: seq<Mapping> := [
    Mapping(CreateCommand, CreatePath, Overwrite),
    Mapping(SyncCommand, SyncPath, Overwrite),
    Mapping(CheckCommand, CheckPath, Overwrite),
    Mapping(DoctorCommand, DoctorPath, Overwrite)
  ]

  /** The two core files the updater refreshes, always copied. */
  const DocMapping := Mapping(CoreAgreementDoc, DocPath, Overwrite)
  const TplMapping := Mapping(CoreAgreementTpl, TplPath, Overwrite)

  /** The two customize files under `bmad`, with the rule the caller uses. */
  function CustomizeMappings(bmad: string, policy: Policy): seq<Mapping> {
    [Mapping(MasterCustomize, MasterPath(bmad), policy), Mapping(PmCustomize, PmPath(bmad), policy)]
  }

  /** The installer keeps a customize file that already mentions agreements. */
  const InstallCustomize: seq<Mapping> := CustomizeMappings(BmadDir, KeepIfContains("agreement"))

  /** The sidecar memory file, always copied by the installer. */
  const ActiveMapping := Mapping(ActiveAgreements, ActivePath, Overwrite)

  /** The files both `init` and `update` always overwrite (the template, the
      agreement document and the four commands) equal their templates, and
      their directories exist. */
  ghost predicate ToolFilesCurrent(fs: Fs, t: Templates) {
    && FileAt(fs, TplPath) == Some(t(CoreAgreementTpl)) && Exists(fs, Parent(TplPath))
    && FileAt(fs, DocPath) == Some(t(CoreAgreementDoc)) && Exists(fs, Parent(DocPath))
    && forall i :: 0 <= i < |CommandMappings| ==>
         FileAt(fs, CommandMappings[i].dest) == Some(t(CommandMappings[i].src))
         && Exists(fs, Parent(CommandMappings[i].dest))
  }

  /** `p` is a prefix of none of the destinations, as shown by position `k`. */
  lemma NotCoversAt(ms: seq<Mapping>, p: string, k: nat)
    requires k < |p|
    requires forall i :: 0 <= i < |ms| ==> k < |ms[i].dest| && ms[i].dest[k] != p[k]
    ensures !Covers(ms, p)
  {
    forall i | 0 <= i < |ms| ensures !(p <= ms[i].dest) {
      NotPrefixAt(p, ms[i].dest, k);
    }
  }

  /** No core file is a prefix of another. */
  lemma CoreIndependent()
    ensures Independent(CoreMappings)
  {
    IndependentAt(CoreMappings, 12);
  }

  /** No command file is a prefix of another. */
  lemma CommandsIndependent()
    ensures Independent(CommandMappings)
  {
    IndependentAt(CommandMappings, 28);
  }

  /** The two customize files are not prefixes of each other. */
  lemma CustomizeIndependent(bmad: string, policy: Policy)
    ensures Independent(CustomizeMappings(bmad, policy))
  {
    var ms := CustomizeMappings(bmad, policy);
    var k := |AgentsDir(bmad)| + 1;
    assert ms[0].dest[k] == 'c' && ms[1].dest[k] == 'b';
    IndependentAt(ms, k);
  }

  /** Every core file lies in `.agreements`. */
  lemma CoreInDir()
    ensures forall p :: p in Dests(CoreMappings) ==> AgreementsDir + "/" <= p
  {
    forall i | 0 <= i < |CoreMappings| ensures AgreementsDir + "/" <= CoreMappings[i].dest {
      assert CoreMappings[i].dest[..12] == AgreementsDir + "/";
    }
  }

  /** Every command file lies in the command directory. */
  lemma CommandsInDir()
    ensures forall p :: p in Dests(CommandMappings) ==> CommandsDir + "/" <= p
  {
    forall i | 0 <= i < |CommandMappings| ensures CommandsDir + "/" <= CommandMappings[i].dest {
      assert CommandMappings[i].dest[..17] == CommandsDir + "/";
    }
  }

  /** Every customize file lies in the agents directory. */
  lemma CustomizeInDir(bmad: string, policy: Policy)
    ensures forall p :: p in Dests(CustomizeMappings(bmad, policy)) ==> AgentsDir(bmad) + "/" <= p
  {
    var ms := CustomizeMappings(bmad, policy);
    var a := AgentsDir(bmad) + "/";
    forall i | 0 <= i < |ms| ensures a <= ms[i].dest {
      assert ms[i].dest[..|a|] == a;
    }
  }

  /** `_bmad` and its agents directory are prefixes of none of the core and
      command files. */
  lemma BmadDirUntouched()
    ensures !Covers(CoreMappings, BmadDir) && !Covers(CommandMappings, BmadDir)
    ensures !Covers(CoreMappings, AgentsDir(BmadDir)) && !Covers(CommandMappings, AgentsDir(BmadDir))
    ensures !(BmadDir <= CommandsDir) && !(AgentsDir(BmadDir) <= CommandsDir)
    ensures !(BmadDir <= DocPath) && !(AgentsDir(BmadDir) <= DocPath)
    ensures !(BmadDir <= TplPath) && !(AgentsDir(BmadDir) <= TplPath)
  {
    assert BmadDir[0] != CoreMappings[0].dest[0];
    NotCoversAt(CoreMappings, BmadDir, 0);
    NotCoversAt(CommandMappings, BmadDir, 0);
    NotCoversAt(CoreMappings, AgentsDir(BmadDir), 0);
    NotCoversAt(CommandMappings, AgentsDir(BmadDir), 0);
    NotPrefixAt(BmadDir, CommandsDir, 0);
    NotPrefixAt(AgentsDir(BmadDir), CommandsDir, 0);
    NotPrefixAt(BmadDir, DocPath, 0);
    NotPrefixAt(AgentsDir(BmadDir), DocPath, 0);
    NotPrefixAt(BmadDir, TplPath, 0);
    NotPrefixAt(AgentsDir(BmadDir), TplPath, 0);
  }

  /** The same for `.bmad`. */
  lemma LegacyDirUntouched()
    ensures !Covers(CoreMappings, LegacyBmadDir) && !Covers(CommandMappings, LegacyBmadDir)
    ensures !Covers(CoreMappings, AgentsDir(LegacyBmadDir)) && !Covers(CommandMappings, AgentsDir(LegacyBmadDir))
    ensures !(LegacyBmadDir <= CommandsDir) && !(AgentsDir(LegacyBmadDir) <= CommandsDir)
    ensures !(LegacyBmadDir <= DocPath) && !(AgentsDir(LegacyBmadDir) <= DocPath)
    ensures !(LegacyBmadDir <= TplPath) && !(AgentsDir(LegacyBmadDir) <= TplPath)
  {
    assert LegacyBmadDir[1] != CoreMappings[0].dest[1];
    NotCoversAt(CoreMappings, LegacyBmadDir, 1);
    NotCoversAt(CommandMappings, LegacyBmadDir, 1);
    NotCoversAt(CoreMappings, AgentsDir(LegacyBmadDir), 1);
    NotCoversAt(CommandMappings, AgentsDir(LegacyBmadDir), 1);
    NotPrefixAt(LegacyBmadDir, CommandsDir, 1);
    NotPrefixAt(AgentsDir(LegacyBmadDir), CommandsDir, 1);
    NotPrefixAt(LegacyBmadDir, DocPath, 1);
    NotPrefixAt(AgentsDir(LegacyBmadDir), DocPath, 1);
    NotPrefixAt(LegacyBmadDir, TplPath, 1);
    NotPrefixAt(AgentsDir(LegacyBmadDir), TplPath, 1);
  }

  /** None of the install and update steps before the framework step can
      create a framework directory or its agents directory. */
  lemma FrameworkDirsUntouched(bmad: string)
    requires bmad == BmadDir || bmad == LegacyBmadDir
    ensures !Covers(CoreMappings, bmad) && !Covers(CommandMappings, bmad)
    ensures !Covers(CoreMappings, AgentsDir(bmad)) && !Covers(CommandMappings, AgentsDir(bmad))
    ensures !(bmad <= CommandsDir) && !(AgentsDir(bmad) <= CommandsDir)
    ensures !(bmad <= DocPath) && !(AgentsDir(bmad) <= DocPath)
    ensures !(bmad <= TplPath) && !(AgentsDir(bmad) <= TplPath)
  {
    if bmad == BmadDir {
      BmadDirUntouched();
    } else {
      LegacyDirUntouched();
    }
  }

  /** A customize file of either framework directory is not a command
      file. */
  lemma CustomizeNotCommand(bmad: string, policy: Policy, p: string)
    requires bmad == BmadDir || bmad == LegacyBmadDir
    requires p in Dests(CustomizeMappings(bmad, policy))
    ensures p !in Dests(CommandMappings)
  {
    CustomizeInDir(bmad, policy);
    CommandsInDir();
    var a := AgentsDir(bmad) + "/";
    var k := if bmad == BmadDir then 0 else 1;
    assert p[k] == a[k];
    forall q | q in Dests(CommandMappings) ensures q != p {
      PrefixDiffers(CommandsDir + "/", q, p, k);
    }
  }

  /** The sidecar file is neither a command file nor a customize file of
      either framework directory. */
  lemma SidecarApart(policy: Policy)
    ensures ActivePath !in Dests(CommandMappings)
    ensures ActivePath !in Dests(CustomizeMappings(BmadDir, policy))
    ensures ActivePath !in Dests(CustomizeMappings(LegacyBmadDir, policy))
  {
    CommandsInDir();
    CustomizeInDir(BmadDir, policy);
    CustomizeInDir(LegacyBmadDir, policy);
    var agents := AgentsDir(BmadDir) + "/";
    var legacy := AgentsDir(LegacyBmadDir) + "/";
    assert ActivePath[0] == '_' && ActivePath[7] == 'm';
    assert agents[7] == 'c' && legacy[0] == '.';
    forall q | q in Dests(CommandMappings) ensures q != ActivePath {
      PrefixDiffers(CommandsDir + "/", q, ActivePath, 0);
    }
    forall q | q in Dests(CustomizeMappings(BmadDir, policy)) ensures q != ActivePath {
      PrefixDiffers(agents, q, ActivePath, 7);
    }
    forall q | q in Dests(CustomizeMappings(LegacyBmadDir, policy)) ensures q != ActivePath {
      PrefixDiffers(legacy, q, ActivePath, 0);
    }
  }

  /** The sidecar file lies under `_bmad`. */
  lemma SidecarUnderBmad()
    ensures 5 < |ActivePath| && ActivePath[5] == '/' && ActivePath[..5] == BmadDir
  {
    assert MemoryDir[..5] == BmadDir && MemoryDir[5] == '/';
  }

  /** The sidecar memory steps cannot create the agents directory. */
  lemma AgentsDirNotUnderMemory()
    ensures !(AgentsDir(BmadDir) <= MemoryDir) && !(AgentsDir(BmadDir) <= ActivePath)
  {
    NotPrefixAt(AgentsDir(BmadDir), MemoryDir, 7);
    NotPrefixAt(AgentsDir(BmadDir), ActivePath, 7);
  }
}
