/** The project directory the tool works in, as an abstract filesystem, and
    the primitives it uses: the existence test, recursive directory
    creation and whole-file writes. */
module FileSystem {

  datatype Option<T> = None | Some(value: T)

  /** A project directory: file contents by path, and the set of
      directories. Paths are relative to the project root, with `/` between
      their components; the root itself is the empty path. */
  datatype Fs = Fs(files: map<string, string>, dirs: set<string>)

  /** `existsSync`: a file or a directory is at `p`. The root always exists. */
  predicate Exists(fs: Fs, p: string) {
    p == "" || p in fs.files || p in fs.dirs
  }

  /** The content of the file at `p`, if there is one. */
  function FileAt(fs: Fs, p: string): Option<string> {
    if p in fs.files then Some(fs.files[p]) else None
  }

  /** Nothing that existed in `fs` is gone in `fs'`. */
  ghost predicate Grows(fs: Fs, fs': Fs) {
    fs.files.Keys <= fs'.files.Keys && fs.dirs <= fs'.dirs
  }

  lemma GrowsExists(fs: Fs, fs': Fs, p: string)
    requires Grows(fs, fs')
    ensures Exists(fs, p) ==> Exists(fs', p)
  {
  }

  /** Every existence test that holds in `fs` still holds in `fs'`, and the
      tests on paths that are not prefixes of `q` come out the same. */
  ghost predicate ExtendsAt(fs: Fs, fs': Fs, q: string) {
    && Grows(fs, fs')
    && forall p :: !(p <= q) ==> (Exists(fs', p) <==> Exists(fs, p))
  }

  /** The position of the last `/` in `p`, or -1 if there is none. */
  function LastSlash(p: string): (k: int)
    ensures -1 <= k < |p|
    ensures 0 <= k ==> p[k] == '/'
    ensures forall i :: k < i < |p| ==> p[i] != '/'
    decreases |p|
  {
    if p == [] then -1 else if p[|p| - 1] == '/' then |p| - 1 else LastSlash(p[..|p| - 1])
  }

  /** `path.dirname` of a relative path: everything before the last `/`,
      or the root when there is none. */
  function Parent(p: string): (d: string)
    ensures d <= p
    ensures p != "" ==> |d| < |p|
    ensures (forall i :: 0 <= i < |p| ==> p[i] != '/') ==> d == ""
    ensures d != "" ==> p[|d|] == '/' && forall i :: |d| < i < |p| ==> p[i] != '/'
    ensures d == "" ==> forall i :: 0 < i < |p| ==> p[i] != '/'
  {
    var k := LastSlash(p);
    if k < 0 then "" else p[..k]
  }

  /** `dirname(join(dir, name))` is `dir` for a name without a `/`. */
  lemma ParentJoin(dir: string, name: string)
    requires forall i :: 0 <= i < |name| ==> name[i] != '/'
    ensures Parent(dir + "/" + name) == dir
  {
    var p := dir + "/" + name;
    var d := Parent(p);
    assert p[|dir|] == '/';
    forall i | |dir| < i < |p| ensures p[i] != '/' {
      assert p[i] == name[i - |dir| - 1];
    }
    if d != "" {
      assert |d| == |dir|;
      assert d == p[..|dir|] == dir;
    }
  }

  /** The directories `mkdirSync(d, { recursive: true })` makes sure of:
      `d` and every directory on the way to it. */
  function Ancestors(d: string): (a: set<string>)
    ensures forall x :: x in a ==> x != "" && x <= d
    ensures d != "" ==> d in a
    ensures forall i :: 0 < i < |d| && d[i] == '/' ==> d[..i] in a
  {
    assert d[..|d|] == d;
    set i | 0 < i <= |d| && (i == |d| || d[i] == '/') :: d[..i]
  }

  /** The filesystem after `mkdirSync(d, { recursive: true })`. */
  function MakeDirs(fs: Fs, d: string): (r: Fs)
    ensures r.files == fs.files
    ensures Exists(r, d)
    ensures forall i :: 0 < i < |d| && d[i] == '/' ==> Exists(r, d[..i])
    ensures ExtendsAt(fs, r, d)
  {
    fs.(dirs := fs.dirs + Ancestors(d))
  }

  /** Every directory on the way to `p` exists. */
  ghost predicate ClosedAt(fs: Fs, p: string) {
    forall i :: 0 < i < |p| && p[i] == '/' ==> Exists(fs, p[..i])
  }

  /** A directory tree as the host keeps it: every directory on the way to
      a file or a directory exists. */
  ghost predicate WellFormed(fs: Fs) {
    && (forall p :: p in fs.files ==> ClosedAt(fs, p))
    && (forall p :: p in fs.dirs ==> ClosedAt(fs, p))
  }

  /** In a well-formed tree every directory on the way to an existing path
      exists. */
  lemma WellFormedExists(fs: Fs, p: string, i: int)
    requires WellFormed(fs) && Exists(fs, p) && 0 < i < |p| && p[i] == '/'
    ensures Exists(fs, p[..i])
  {
  }

  lemma ClosedGrows(fs: Fs, fs': Fs, p: string)
    requires ClosedAt(fs, p) && Grows(fs, fs')
    ensures ClosedAt(fs', p)
  {
    forall i | 0 < i < |p| && p[i] == '/' ensures Exists(fs', p[..i]) {
      GrowsExists(fs, fs', p[..i]);
    }
  }

  /** Recursive mkdir keeps a tree well formed. */
  lemma MakeDirsWellFormed(fs: Fs, d: string)
    requires WellFormed(fs)
    ensures WellFormed(MakeDirs(fs, d))
  {
    var r := MakeDirs(fs, d);
    forall p | p in r.files || p in r.dirs ensures ClosedAt(r, p) {
      if p in fs.files || p in fs.dirs {
        ClosedGrows(fs, r, p);
      } else {
        assert p in Ancestors(d);
        forall i | 0 < i < |p| && p[i] == '/' ensures Exists(r, p[..i]) {
          assert d[i] == '/' && d[..i] == p[..i];
        }
      }
    }
  }

  /** A prefix of a prefix is a prefix. */
  lemma PrefixTrans(a: string, b: string, c: string)
    requires a <= b && b <= c
    ensures a <= c
  {
    assert c[..|b|][..|a|] == c[..|a|];
  }

  /** `!(a <= b)`, witnessed by a position where the two differ. */
  lemma NotPrefixAt(a: string, b: string, i: nat)
    requires i < |a| && i < |b| && a[i] != b[i]
    ensures !(a <= b)
  {
  }

  /** Two paths are apart when one extends a prefix `a` that differs from
      the other at position `i`. */
  lemma PrefixDiffers(a: string, p: string, q: string, i: nat)
    requires a <= p && i < |a| && i < |q| && a[i] != q[i]
    ensures p != q && !(p <= q) && !(q <= p)
  {
    assert p[i] == a[i];
  }

  /** The filesystem after `copyTemplate(src, dest)` where `src` holds
      `content`: the parent directory of `dest` is created (with its own
      parents) if it does not exist, then `dest` is written. */
  function Copied(fs: Fs, content: string, dest: string): (r: Fs)
    ensures FileAt(r, dest) == Some(content)
    ensures Exists(r, Parent(dest))
    ensures forall p :: p != dest ==> FileAt(r, p) == FileAt(fs, p)
    ensures ExtendsAt(fs, r, dest)
    ensures Exists(fs, Parent(dest)) ==> r.dirs == fs.dirs
  {
    var dir := Parent(dest);
    var fs1 := if Exists(fs, dir) then fs else MakeDirs(fs, dir);
    forall p | !(p <= dest) && p != "" ensures (Exists(fs1, p) <==> Exists(fs, p)) {
      if !Exists(fs, dir) && p <= dir {
        PrefixTrans(p, dir, dest);
      }
    }
    fs1.(files := fs1.files[dest := content])
  }

  /** copyTemplate keeps a tree well formed. */
  lemma CopiedWellFormed(fs: Fs, content: string, dest: string)
    requires WellFormed(fs)
    ensures WellFormed(Copied(fs, content, dest))
  {
    var dir := Parent(dest);
    var fs1 := if Exists(fs, dir) then fs else MakeDirs(fs, dir);
    if !Exists(fs, dir) {
      MakeDirsWellFormed(fs, dir);
    }
    assert WellFormed(fs1) && Exists(fs1, dir);
    var r := Copied(fs, content, dest);
    assert r == fs1.(files := fs1.files[dest := content]);
    assert Grows(fs1, r);
    forall p | p in r.files || p in r.dirs ensures ClosedAt(r, p) {
      if p in fs1.files || p in fs1.dirs {
        ClosedGrows(fs1, r, p);
      } else {
        assert p == dest;
        forall i | 0 < i < |p| && p[i] == '/' ensures Exists(r, p[..i]) {
          assert dir != "";
          if i < |dir| {
            assert dir[i] == '/' && dir[..i] == p[..i];
            WellFormedExists(fs1, dir, i);
            GrowsExists(fs1, r, p[..i]);
          } else {
            assert p[..i] == dir;
          }
        }
      }
    }
  }

  /** The project directory the tool runs in (`process.cwd()`): the state
      that `existsSync`, `readFileSync`, `mkdirSync` and `copyFileSync`
      inspect and change. */
  class Workspace {
    var files: map<string, string>
    var dirs: set<string>

    /** The current contents of the directory as a value. */
    function State(): Fs
      reads this
    {
      Fs(files, dirs)
    }

    /** `mkdirSync(d, { recursive: true })`. */
    method MakeDirectory(d: string)
      modifies this
      ensures State() == MakeDirs(old(State()), d)
    {
      dirs := dirs + Ancestors(d);
    }

    /** `copyFileSync` into `dest`: the whole file is replaced. */
    method WriteFile(dest: string, content: string)
      modifies this
      ensures files == old(files)[dest := content]
      ensures dirs == old(dirs)
    {
      files := files[dest := content];
    }
  }
}
