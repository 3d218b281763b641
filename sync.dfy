/** Copying bundled templates into the project: the per-file rules the
    installer and the updater apply, one mapping at a time and over a
    whole mapping table. */
module TemplateSync {
  import opened FileSystem
  import opened Strings

  /** The bundled template files, one constructor each: the four files of
      `core/`, the four command files of `commands/`, and the two customize
      files and the sidecar file of `bmad/`. */
  datatype Source =
    | CoreAgreementTpl | CoreIndex | CoreAgreementDoc | CoreConfig
    | CreateCommand | SyncCommand | CheckCommand | DoctorCommand
    | MasterCustomize | PmCustomize | ActiveAgreements

  /** The contents of the bundled templates. They ship with the tool, are
      read-only and are opaque to it. */
  type Templates = Source -> string

  /** What may happen to a destination that is already there. */
  datatype Policy =
    | Overwrite                        // always copied
    | KeepExisting                     // skipped when the path exists
    | KeepIfContains(marker: string)   // skipped when the file's content includes marker

  /** One row of a mapping table: a template, the path it is copied to, and
      the rule for an existing destination. */
  datatype Mapping = Mapping(src: Source, dest: string, policy: Policy)

  /** Whether the rule leaves the destination alone. */
  predicate Skips(fs: Fs, m: Mapping) {
    match m.policy
    case Overwrite => false
    case KeepExisting => Exists(fs, m.dest)
    case KeepIfContains(marker) => m.dest in fs.files && Contains(fs.files[m.dest], marker)
  }

  /** The rule table, stated on the destination alone: what it holds after
      the mapping is applied, given what it held before and whether the
      path existed. */
  function Outcome(m: Mapping, t: Templates, before: Option<string>, existed: bool): Option<string> {
    match m.policy
    case Overwrite => Some(t(m.src))
    case KeepExisting => if existed then before else Some(t(m.src))
    case KeepIfContains(marker) =>
      if before.Some? && Contains(before.value, marker) then before else Some(t(m.src))
  }

  /** Only the keep-existing rule looks at whether the destination exists. */
  lemma OutcomeIgnoresExistence(m: Mapping, t: Templates, before: Option<string>, e1: bool, e2: bool)
    requires !m.policy.KeepExisting?
    ensures Outcome(m, t, before, e1) == Outcome(m, t, before, e2)
  {
  }

  /** The filesystem after one mapping is applied. */
  function Synced(fs: Fs, m: Mapping, t: Templates): (r: Fs)
    ensures FileAt(r, m.dest) == Outcome(m, t, FileAt(fs, m.dest), Exists(fs, m.dest))
    ensures forall p :: p != m.dest ==> FileAt(r, p) == FileAt(fs, p)
    ensures ExtendsAt(fs, r, m.dest)
  {
    if Skips(fs, m) then fs else Copied(fs, t(m.src), m.dest)
  }

  /** The destinations of a table. */
  function Dests(ms: seq<Mapping>): set<string> {
    set i | 0 <= i < |ms| :: ms[i].dest
  }

  /** `p` is a prefix of some destination of the table, so applying the
      table may create it. */
  ghost predicate Covers(ms: seq<Mapping>, p: string) {
    exists i :: 0 <= i < |ms| && p <= ms[i].dest
  }

  /** A path that is a prefix of no destination is not covered. */
  lemma NotCovers(ms: seq<Mapping>, p: string)
    requires forall q :: q in Dests(ms) ==> !(p <= q)
    ensures !Covers(ms, p)
  {
    forall i | 0 <= i < |ms| ensures !(p <= ms[i].dest) {
      assert ms[i].dest in Dests(ms);
    }
  }

  /** The filesystem after the mappings are applied in order. */
  function SyncAll(fs: Fs, ms: seq<Mapping>, t: Templates): (r: Fs)
    ensures Grows(fs, r)
    ensures forall p :: p !in Dests(ms) ==> FileAt(r, p) == FileAt(fs, p)
    ensures forall p :: !Covers(ms, p) ==> (Exists(r, p) <==> Exists(fs, p))
    decreases |ms|
  {
    if ms == [] then fs
    else
      var n := |ms| - 1;
      var prev := SyncAll(fs, ms[..n], t);
      assert forall p :: p !in Dests(ms) ==> p !in Dests(ms[..n]) && p != ms[n].dest by {
        forall p | p in Dests(ms[..n]) ensures p in Dests(ms) {
          var i :| 0 <= i < n && ms[..n][i].dest == p;
          assert ms[i].dest == p;
        }
      }
      assert forall p :: !Covers(ms, p) ==> !Covers(ms[..n], p) && !(p <= ms[n].dest) by {
        forall p | Covers(ms[..n], p) ensures Covers(ms, p) {
          var i :| 0 <= i < n && p <= ms[..n][i].dest;
          assert p <= ms[i].dest;
        }
      }
      Synced(prev, ms[n], t)
  }

  /** Applying one row keeps a directory tree well formed. */
  lemma SyncedWellFormed(fs: Fs, m: Mapping, t: Templates)
    requires WellFormed(fs)
    ensures WellFormed(Synced(fs, m, t))
  {
    if !Skips(fs, m) {
      CopiedWellFormed(fs, t(m.src), m.dest);
    }
  }

  /** Applying a table keeps a directory tree well formed. */
  lemma {:induction false} SyncAllWellFormed(fs: Fs, ms: seq<Mapping>, t: Templates)
    requires WellFormed(fs)
    ensures WellFormed(SyncAll(fs, ms, t))
    decreases |ms|
  {
    if ms != [] {
      var n := |ms| - 1;
      SyncAllWellFormed(fs, ms[..n], t);
      var prev := SyncAll(fs, ms[..n], t);
      SyncedWellFormed(prev, ms[n], t);
    }
  }

  /** No destination of the table is a prefix of another one: applying one
      row neither writes nor creates another row's destination. */
  ghost predicate Independent(ms: seq<Mapping>) {
    forall i, j :: 0 <= i < |ms| && 0 <= j < |ms| && i != j ==> !(ms[i].dest <= ms[j].dest)
  }

  /** A table whose destinations all differ at one position is independent. */
  lemma IndependentAt(ms: seq<Mapping>, k: nat)
    requires forall i :: 0 <= i < |ms| ==> k < |ms[i].dest|
    requires forall i, j :: 0 <= i < j < |ms| ==> ms[i].dest[k] != ms[j].dest[k]
    ensures Independent(ms)
  {
    forall i, j | 0 <= i < |ms| && 0 <= j < |ms| && i != j
      ensures !(ms[i].dest <= ms[j].dest)
    {
      NotPrefixAt(ms[i].dest, ms[j].dest, k);
    }
  }

  /** Applying a whole independent table leaves each destination as its own
      row's rule decides from the state before the table. */
  lemma {:induction false} SyncAllAt(fs: Fs, ms: seq<Mapping>, t: Templates, i: int)
    requires Independent(ms) && 0 <= i < |ms|
    ensures FileAt(SyncAll(fs, ms, t), ms[i].dest)
         == Outcome(ms[i], t, FileAt(fs, ms[i].dest), Exists(fs, ms[i].dest))
    decreases |ms|
  {
    var n := |ms| - 1;
    var d := ms[i].dest;
    var prev := SyncAll(fs, ms[..n], t);
    if i == n {
      forall j | 0 <= j < n ensures ms[..n][j].dest != d && !(d <= ms[..n][j].dest) {
        assert ms[..n][j] == ms[j];
      }
      assert d !in Dests(ms[..n]);
      assert !Covers(ms[..n], d);
    } else {
      assert ms[..n][i] == ms[i];
      assert Independent(ms[..n]) by {
        forall a, b | 0 <= a < n && 0 <= b < n && a != b
          ensures !(ms[..n][a].dest <= ms[..n][b].dest)
        {
          assert ms[..n][a] == ms[a] && ms[..n][b] == ms[b];
        }
      }
      SyncAllAt(fs, ms[..n], t, i);
      assert d != ms[n].dest;
    }
  }

  /** The destination of `m` already is what applying `m` would leave:
      applying it again changes nothing. */
  ghost predicate Settled(fs: Fs, m: Mapping, t: Templates) {
    match m.policy
    case Overwrite => FileAt(fs, m.dest) == Some(t(m.src)) && Exists(fs, Parent(m.dest))
    case KeepExisting => Exists(fs, m.dest)
    case KeepIfContains(marker) =>
      m.dest in fs.files
      && (Contains(fs.files[m.dest], marker)
          || (fs.files[m.dest] == t(m.src) && Exists(fs, Parent(m.dest))))
  }

  /** After a mapping is applied, its destination is settled. */
  lemma SyncedSettles(fs: Fs, m: Mapping, t: Templates)
    ensures Settled(Synced(fs, m, t), m, t)
  {
  }

  /** Applying a settled mapping is the identity. */
  lemma SettledFixed(fs: Fs, m: Mapping, t: Templates)
    requires Settled(fs, m, t)
    ensures Synced(fs, m, t) == fs
  {
    if !Skips(fs, m) {
      assert fs.files[m.dest := t(m.src)] == fs.files;
    }
  }

  /** A settled mapping stays settled while its destination file is not
      touched and nothing is removed. */
  lemma SettledStable(fs: Fs, fs': Fs, m: Mapping, t: Templates)
    requires Settled(fs, m, t) && Grows(fs, fs') && FileAt(fs', m.dest) == FileAt(fs, m.dest)
    ensures Settled(fs', m, t)
  {
    GrowsExists(fs, fs', m.dest);
    GrowsExists(fs, fs', Parent(m.dest));
  }

  ghost predicate AllSettled(fs: Fs, ms: seq<Mapping>, t: Templates) {
    forall i :: 0 <= i < |ms| ==> Settled(fs, ms[i], t)
  }

  /** A table with distinct destinations is settled once it has been applied. */
  lemma {:induction false} SyncAllSettles(fs: Fs, ms: seq<Mapping>, t: Templates)
    requires Independent(ms)
    ensures AllSettled(SyncAll(fs, ms, t), ms, t)
    decreases |ms|
  {
    if ms != [] {
      var n := |ms| - 1;
      var prev := SyncAll(fs, ms[..n], t);
      var r := Synced(prev, ms[n], t);
      assert Independent(ms[..n]) by {
        forall a, b | 0 <= a < n && 0 <= b < n && a != b
          ensures !(ms[..n][a].dest <= ms[..n][b].dest)
        {
          assert ms[..n][a] == ms[a] && ms[..n][b] == ms[b];
        }
      }
      SyncAllSettles(fs, ms[..n], t);
      SyncedSettles(prev, ms[n], t);
      forall i | 0 <= i < n ensures Settled(r, ms[i], t) {
        assert ms[..n][i] == ms[i];
        assert ms[i].dest != ms[n].dest;
        SettledStable(prev, r, ms[i], t);
      }
    }
  }

  /** Applying a settled table is the identity. */
  lemma {:induction false} SyncAllFixed(fs: Fs, ms: seq<Mapping>, t: Templates)
    requires AllSettled(fs, ms, t)
    ensures SyncAll(fs, ms, t) == fs
    decreases |ms|
  {
    if ms != [] {
      var n := |ms| - 1;
      assert AllSettled(fs, ms[..n], t) by {
        forall i | 0 <= i < n ensures Settled(fs, ms[..n][i], t) {
          assert ms[..n][i] == ms[i];
        }
      }
      SyncAllFixed(fs, ms[..n], t);
      SettledFixed(fs, ms[n], t);
    }
  }

  /** A settled table stays settled while none of its destination files is
      touched and nothing is removed. */
  lemma AllSettledStable(fs: Fs, fs': Fs, ms: seq<Mapping>, t: Templates)
    requires AllSettled(fs, ms, t) && Grows(fs, fs')
    requires forall p :: p in Dests(ms) ==> FileAt(fs', p) == FileAt(fs, p)
    ensures AllSettled(fs', ms, t)
  {
    forall i | 0 <= i < |ms| ensures Settled(fs', ms[i], t) {
      assert ms[i].dest in Dests(ms);
      SettledStable(fs, fs', ms[i], t);
    }
  }

  /** `copyTemplate(src, dest)`: create the destination's directory if it is
      missing, then copy the template over the destination. */
  method CopyTemplate(w: Workspace, content: string, dest: string)
    modifies w
    ensures w.State() == Copied(old(w.State()), content, dest)
  {
    var dir := Parent(dest);
    if !Exists(w.State(), dir) {
      w.MakeDirectory(dir);
    }
    w.WriteFile(dest, content);
  }

  /** The loop over a mapping table: each row is either skipped by its rule
      or copied. */
  method SyncEach(w: Workspace, ms: seq<Mapping>, t: Templates)
    modifies w
    ensures w.State() == SyncAll(old(w.State()), ms, t)
  {
    for i := 0 to |ms|
      invariant w.State() == SyncAll(old(w.State()), ms[..i], t)
    {
      assert ms[..i + 1][..i] == ms[..i];
      var m := ms[i];
      match m.policy {
        case KeepExisting =>
          if Exists(w.State(), m.dest) {
            continue;
          }
        case KeepIfContains(marker) =>
          if m.dest in w.files && Contains(w.files[m.dest], marker) {
            continue;
          }
        case Overwrite =>
      }
      CopyTemplate(w, t(m.src), m.dest);
    }
    assert ms[..|ms|] == ms;
  }
}
