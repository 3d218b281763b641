# agreement-system: install, update and dispatch

The `agreement-system` command-line tool installs a set of template files
into a project directory and later refreshes them. This project models,
in Dafny, the part of the tool that decides which managed files it writes,
which it skips and which it leaves alone:

- `init` (`src/installer.js`):
  - takes one snapshot of the project before anything is written;
  - asks before touching an existing `.agreements/` installation, unless
    `--yes` is given;
  - copies the core table under `.agreements/`. The index is kept when it
    already lists agreements (`feature_id:`), and the config is kept when it
    exists;
  - creates `.claude/commands/` when needed and copies the four command
    definitions;
  - runs the agent-framework step when it is not skipped and is either
    forced or detected. If `_bmad/_config/agents/` exists, the step copies
    the two customize files, keeping any file that already mentions
    `agreement`. It always creates the sidecar memory directory and writes
    the sidecar file.
- `update` (`src/updater.js`):
  - fails with status 1 when `.agreements/` is missing;
  - otherwise overwrites a fixed whitelist: the four commands, the agreement
    document and the agreement template;
  - then resolves the framework directory (`_bmad` first, then `.bmad`);
  - when that directory's `_config/agents/` exists, overwrites its two
    customize files.
- the dispatcher (`bin/cli.js`) reads the command from `argv[2]` and the
  flags from the rest of the arguments. It then runs `init` or `update`,
  prints help, or reports an unknown command with status 1.

The project directory is a value `Fs(files, dirs)`:

- `files` maps relative paths to contents;
- `dirs` is the set of directories;
- the root `""` always exists.

`FileSystem.WellFormed` says that every directory on the way to a file or
a directory exists, as on a real host. Recursive mkdir, copyTemplate, the
table loop, `install` and `update` are all proved to keep it.

The filesystem primitives are:

- `Exists` models `existsSync`;
- `MakeDirs` models `mkdirSync(…, { recursive: true })`;
- `Copied` models `copyTemplate`: it creates the parent directory when
  missing, then writes the whole file.

Template contents are an opaque total function `Templates = Source -> string`.

Mapping tables are lists of `Mapping(src, dest, policy)`. A policy is one of:

- `Overwrite`;
- `KeepExisting` (the config rule);
- `KeepIfContains(marker)` (the index and customize rules).

`Outcome` states what each policy leaves in a destination. That is the
decision table of both commands.

The three operations are specified by functions: `Installer.InstallResult`,
`Updater.UpdateResult` and `Cli.Run`. They are also implemented
imperatively on the class `FileSystem.Workspace`, whose `files` and `dirs`
fields the methods update in place. The loops over the mapping tables
(`TemplateSync.SyncEach`) and the `Installer.Install` and `Updater.Update`
methods are proved to produce exactly the state the specification
functions describe.

The lemmas prove the tool's promises:

- the prompt gate, in both directions;
- the per-file rules;
- what each command always writes;
- the frame condition: no file outside the targets changes, and no file
  or directory appears that is not on the way to a target, including
  "update never touches agreements, index or config";
- idempotence of both commands;
- that the framework directory resolved after the whitelist is written is
  the one that existed before;
- the exit codes and the dispatch table.

The customize files are never merged:

- `update` overwrites them unconditionally (`src/updater.js:64-70`);
- `init` skips one on a plain substring test for `agreement`
  (`src/installer.js:128-134`).

Files: `strings.dfy` (the JavaScript string built-ins used),
`filesystem.dfy` (the filesystem value, its primitives and the
`Workspace` class), `sync.dfy` (mapping tables, policies and the copy
loop), `layout.dfy` (the fixed paths and tables), `installer.dfy`,
`updater.dfy`, `cli.dfy`.

## Model

| member | source | states |
|---|---|---|
| Strings.ContainsIff | src/installer.js:78 | `includes` holds exactly when the marker occurs at some offset of the content |
| Strings.TrimStart | src/installer.js:31 | removes an all-space prefix and leaves a result that does not start with a space |
| Strings.TrimEnd | src/installer.js:31 | removes an all-space suffix and leaves a prefix that does not end with a space |
| Strings.TrimSplits | src/installer.js:31 | every string is its trimmed part between an all-space prefix and an all-space suffix, and that part neither starts nor ends with a space |
| Strings.TrimPadded | src/installer.js:31 | `trim` of a word padded by spaces is exactly that word |
| Strings.ToLower | src/installer.js:31 | ASCII lower-casing keeps the length, maps each character by itself and leaves no upper-case ASCII letter |
| FileSystem.Parent | src/installer.js:19 | `dirname` is the part before the last `/`: the root when the path has no `/` after its first character, otherwise a prefix followed by `/` with no `/` after it |
| FileSystem.ParentJoin | src/installer.js:127 | `dirname` of a directory joined with a name without `/` is that directory |
| FileSystem.MakeDirs | src/installer.js:20-22 | recursive mkdir makes the directory and every directory on the way to it exist, writes no file, removes nothing and creates only prefixes of the directory |
| FileSystem.MakeDirsWellFormed | src/installer.js:20-22 | recursive mkdir keeps the tree well formed |
| FileSystem.Copied | src/installer.js:18-24 | copyTemplate leaves the destination holding the content and its parent existing, changes no other file, removes nothing, and adds no directory when the parent existed |
| FileSystem.CopiedWellFormed | src/installer.js:18-24 | copyTemplate keeps the tree well formed |
| FileSystem.Workspace.MakeDirectory | src/installer.js:21 | the in-place mkdir leaves the state `MakeDirs` describes |
| FileSystem.Workspace.WriteFile | src/installer.js:23 | copyFileSync replaces exactly the destination's content |
| TemplateSync.Synced | src/installer.js:76-88 | one row of a table: the destination ends as its rule decides from its previous content and existence; no other file changes |
| TemplateSync.OutcomeIgnoresExistence | src/installer.js:76-87 | only the config rule looks at whether the destination exists |
| TemplateSync.SyncAll | src/installer.js:73-90 | the loop over a table changes no file outside the table, removes nothing and creates only prefixes of its destinations |
| TemplateSync.SyncedWellFormed | src/installer.js:76-88 | one row keeps the tree well formed |
| TemplateSync.SyncAllWellFormed | src/installer.js:73-90 | the loop over a table keeps the tree well formed |
| TemplateSync.SyncAllAt | src/installer.js:73-90 | with distinct destinations, each destination ends as its own rule decides from the state before the loop |
| TemplateSync.SyncedSettles | src/installer.js:73-90 | after a row is applied its destination is settled (holds the template, or is kept by its rule) |
| TemplateSync.SettledFixed | src/installer.js:73-90 | applying a row to a settled destination changes nothing |
| TemplateSync.SettledStable | src/installer.js:73-90 | a settled destination stays settled when its file is unchanged and nothing is removed |
| TemplateSync.SyncAllSettles | src/installer.js:73-90 | after the loop every row of a table with distinct destinations is settled |
| TemplateSync.SyncAllFixed | src/installer.js:73-90 | the loop over a settled table changes nothing |
| TemplateSync.AllSettledStable | src/installer.js:73-90 | a settled table stays settled under later writes elsewhere |
| TemplateSync.CopyTemplate | src/updater.js:8-14 | the in-place copyTemplate leaves the state `Copied` describes |
| TemplateSync.SyncEach | src/installer.js:73-90 | the `for` loop with `continue` leaves the state `SyncAll` describes |
| Layout.CoreIndependent | src/installer.js:66-71 | no core destination is a prefix of another |
| Layout.CommandsIndependent | src/installer.js:100-105 | no command destination is a prefix of another |
| Layout.CustomizeIndependent | src/installer.js:126 | the two customize files are not prefixes of each other |
| Layout.FrameworkDirsUntouched | src/updater.js:29-58 | no core, command, document or template write can create `_bmad`, `.bmad` or their agents directories |
| Layout.AgentsDirNotUnderMemory | src/installer.js:141-147 | the sidecar steps cannot create the agents directory |
| Layout.CustomizeNotCommand | src/installer.js:126-136 | a customize file of either framework directory is not a command file |
| Layout.SidecarApart | src/installer.js:144-147 | the sidecar file is neither a command file nor a customize file of either framework directory |
| Installer.NormalizeAnswer | src/installer.js:31 | the normalised answer has no outer spaces and no upper-case ASCII letter |
| Installer.AffirmativeIff | src/installer.js:31-56 | an answer confirms exactly when its word, lower-cased, is `y` or `yes`, whatever the padding |
| Installer.PaddedYesConfirms | src/installer.js:31-56 | ` YES` followed by a newline confirms |
| Installer.SpacedYesDeclines | src/installer.js:31-56 | `y e s` does not confirm |
| Installer.InstallDeclined | src/installer.js:54-60 | with an installation present, no `--yes` and no yes, nothing changes |
| Installer.InstallPromptGate | src/installer.js:54-61 | with `--yes` or no installation, the answer does not matter and the run proceeds |
| Installer.ManagedPathsDistinct | src/installer.js:66-147 | the core, command, customize and sidecar files are all different paths |
| Installer.BmadSnapshotStable | src/installer.js:45-122 | steps 1 and 2 do not change whether `_bmad` or its agents directory exist, so the snapshot and a fresh test agree |
| Installer.CommandStepFrame | src/installer.js:95-110 | step 2 changes no file outside the command table and removes nothing |
| Installer.BmadStepFrame | src/installer.js:116-148 | step 3 changes no file but the sidecar and, when the agents directory exists, the customize files |
| Installer.SidecarFrame | src/installer.js:141-147 | the sidecar statements change no other file and create only prefixes of the sidecar file |
| Installer.InstallFrame | src/installer.js:54-148 | an install changes no file outside its targets, removes nothing, and leaves the existence of every path that is not on the way to a target as it was |
| Installer.InstallKeepsExistence | src/installer.js:54-148 | an install creates no file or directory that is not a target or a directory on the way to one |
| Installer.BmadStepKeepsExistence | src/installer.js:113-148 | the framework step creates nothing off the way to the sidecar file and, when the agents directory exists, the customize files |
| Installer.InstallCoreFiles | src/installer.js:73-90 | each core file ends as its rule decides from the state before the run |
| Installer.InstallIndex | src/installer.js:76-88 | an index holding `feature_id:` is kept; otherwise a proceeding install writes the template |
| Installer.InstallConfig | src/installer.js:84-88 | an existing config is never changed; an absent one is written by a proceeding install |
| Installer.InstallAlwaysWritten | src/installer.js:66-110 | after a proceeding install the document, the template and the four commands hold their templates and their directories exist |
| Installer.InstalledWritten | src/installer.js:66-110 | the same holds of every installed state |
| Installer.InstallWithoutBmad | src/installer.js:113-153 | with `--skip-bmad`, or neither `--force-bmad` nor `_bmad`, no sidecar or customize file changes |
| Installer.InstallSidecar | src/installer.js:113-148 | when the gate (not skipped, and forced or `_bmad` seen before any write) holds, the sidecar directory exists and the sidecar file holds its template, even with no agents directory |
| Installer.InstallWellFormed | src/installer.js:54-148 | an install keeps the tree well formed |
| Installer.InstallFrameworkDirs | src/installer.js:141-147 | with the framework step, `_bmad` and every directory on the way to the sidecar file exist afterwards, even when the step was forced without `_bmad` |
| Installer.InstallCustomizeFiles | src/installer.js:113-139 | when the gate holds: without the agents directory the customize files are unchanged; with it, one that mentions `agreement` is kept and any other is set to its template |
| Installer.BmadCustomizeAt | src/installer.js:122-139 | the same rule for step 3 alone |
| Installer.CommandStepSettles | src/installer.js:95-110 | after step 2 the command directory exists and every command file is settled |
| Installer.BeforeBmadEstablishes | src/installer.js:66-110 | after steps 1 and 2 both tables are settled |
| Installer.BmadStepSettles | src/installer.js:141-147 | after step 3 the sidecar directory exists and the sidecar file is settled |
| Installer.BmadStepSettlesCustomize | src/installer.js:122-139 | after step 3 the customize table is settled when the agents directory exists |
| Installer.BmadStepEstablishes | src/installer.js:116-148 | step 3 settles its own files and keeps the core and command tables settled |
| Installer.InstallEstablishes | src/installer.js:54-148 | a proceeding install leaves an installed state |
| Installer.InstalledFixed | src/installer.js:66-148 | an install over an installed state changes nothing |
| Installer.InstallIdempotent | src/installer.js:54-148 | installing twice (with `--yes`, or confirming both times) gives the state of installing once |
| Installer.InstallCommands | src/installer.js:95-110 | the in-place step 2 leaves the state `CommandStep` describes |
| Installer.InstallBmad | src/installer.js:119-147 | the in-place step 3 leaves the state `BmadStep` describes |
| Installer.Install | src/installer.js:36-148 | the in-place install leaves exactly the state `InstallResult` describes |
| Updater.ResolveBmadDir | src/updater.js:56-58 | the resolved directory is `_bmad` when it exists, else `.bmad` when it exists, else none, and always an existing one |
| Updater.ResolveStable | src/updater.js:56-58 | the resolution depends only on whether the two directories exist |
| Updater.ResolveBeforeWrites | src/updater.js:29-62 | resolving after the whitelist writes gives the same directory and agents-directory test as before them |
| Updater.UpdateExitCode | src/updater.js:21-24 | the status is 1 exactly when `.agreements` is missing, and then nothing changes |
| Updater.WhitelistFrame | src/updater.js:29-53 | the whitelist writes change no other file and remove nothing |
| Updater.CustomizeStepFrame | src/updater.js:60-71 | the customize writes change no other file and remove nothing |
| Updater.CustomizeTargetsBeforeWrites | src/updater.js:56-71 | the customize files written are those chosen on the state before the run |
| Updater.UpdateFrame | src/updater.js:21-71 | an update changes no file outside the whitelist and the resolved customize files, removes nothing, and leaves the existence of every path that is not on the way to one of them as it was |
| Updater.UpdateKeepsExistence | src/updater.js:21-71 | an update creates no file or directory that is not a target or a directory on the way to one |
| Updater.CustomizeKeepsExistence | src/updater.js:60-71 | the customize step creates nothing off the way to the customize files it writes |
| Updater.WhitelistWellFormed | src/updater.js:29-53 | the whitelist writes keep the tree well formed |
| Updater.UpdateWellFormed | src/updater.js:16-77 | an update keeps the tree well formed |
| Updater.CustomizeApart | src/updater.js:60-71 | a customize file of either framework directory is not a whitelist file, the sidecar file or under `.agreements/` |
| Updater.UpdateKeepsUserData | src/updater.js:26-76 | every file under `.agreements/` except the document and the template is unchanged, including the index and config, and so is the sidecar file |
| Updater.WhitelistSettles | src/updater.js:29-53 | after the whitelist writes the commands, document and template hold their templates with directories in place |
| Updater.UpdateCustomizeFiles | src/updater.js:60-71 | a customize file of the resolved directory holds its template when the agents directory exists, with no content check, and is unchanged otherwise |
| Updater.UpdateWritten | src/updater.js:29-53 | after an update the commands, document and template hold their templates and their directories exist |
| Updater.UpdateEstablishes | src/updater.js:29-71 | a successful update leaves an updated state |
| Updater.UpdatedFixed | src/updater.js:16-77 | an update over an updated state succeeds and changes nothing |
| Updater.UpdateIdempotent | src/updater.js:16-77 | updating twice gives the result of updating once |
| Updater.Update | src/updater.js:16-77 | the in-place update returns the status and leaves the state `UpdateResult` describes; its flags are not used |
| Cli.ParseArgv | bin/cli.js:7-8 | the command is present exactly when there are more than two arguments, and command and flags reassemble the arguments |
| Cli.ParseArgvRoundTrip | bin/cli.js:7-8 | the third argument is the command and the rest are the flags |
| Cli.Dispatch | bin/cli.js:24-41 | `init` and `update` run with the flags, `help`, `--help`, `-h` and a missing command show help, and any other token is unknown, each in both directions |
| Cli.RunExitCode | bin/cli.js:24-41 | the status is 0 or 1, and 1 exactly on an unknown command or on an update without an installation |
| Cli.RunReadOnly | bin/cli.js:31-40 | help and unknown commands change nothing |
| Cli.RunInitFlags | bin/cli.js:25-27 | `init` runs the install with the flags after it |
| Cli.RunUpdateIgnoresFlags | bin/cli.js:28-30 | `update` gives the same outcome whatever the flags and the answer |
| Cli.RunExamples | bin/cli.js:24-41 | no command or `-h` succeed without change; a misspelt command fails with status 1 |

## Left out

- Console output, the help text and the `hasSpeckit` message (`src/installer.js:166-170`): they print and change no file. `Detect` still records `hasSpeckit`.
- The readline prompt and the Promise around it (`src/installer.js:26-34`): the answer is an input string. In `Cli.Run` an install completes with status 0; the fact that `install` is not awaited is not modelled.
- `process.cwd()`, the template directory location and the Node `fs`/`path`/`url` calls: they become the `Fs` value, the `Workspace` class and literal relative paths. Template contents are the opaque `Templates` parameter, and a bundled template is assumed always readable.
- The lemmas other than the `…WellFormed` ones and `Installer.InstallFrameworkDirs` do not require a well-formed tree; they hold for every state, including ones no host could produce.
- Host filesystem errors: a directory where a file is to be written, `readFileSync` on a directory, permissions and partial writes. The model writes as if each destination were free.
- Concurrent invocations and crashes half-way through a run.
- `process.exit(1)` ends the update before any write; the model returns status 1 with the state unchanged.
- Strings.ToLower: lower-cases the ASCII letters A to Z only and maps each character by itself. JavaScript's `toLowerCase` also maps non-ASCII letters, may change the length (`İ`) and lowers a final `Σ` by its context; the answers that confirm (`y`, `yes`) are ASCII either way.
- Installer.NormalizeAnswer: lower-cases the ASCII letters A to Z only. JavaScript's `toLowerCase` also maps non-ASCII letters; an answer that matters (`y`, `yes`) is ASCII either way.
- Strings.ContainsIff: strings are sequences of Dafny characters, not UTF-16 code units, so `includes` is modelled on characters.
- A marker-delimited merge of customize files: the code has none. Customize files are skipped on a substring test by `init` and overwritten by `update`.
