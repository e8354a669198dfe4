/** Copying an import graph under a fresh root, as `copyModuleImportGraphWithoutNodeModules` does. */
module IsolatedCopy {
  import opened Base
  import opened PosixPath
  import opened ImportGraph

  // ---------------------------------------------------------------- package root

  lemma {:induction false} FileAncestorsAreDirs(fs: FileSystem, file: Path, p: Path)
    requires fs.WellFormed() && (file in fs.files || file in fs.dirs) && p < file
    ensures p in fs.dirs
    decreases |file|
  {
    if p != Dirname(file) {
      FileAncestorsAreDirs(fs, Dirname(file), p);
    }
  }

  /** The nearest directory at or above the module's directory that holds a package.json. */
  ghost predicate IsPackageRoot(fs: FileSystem, modulePath: Path, root: Path) {
    && root <= Dirname(modulePath) && fs.Exists(root + ["package.json"])
    && forall p | p <= Dirname(modulePath) && fs.Exists(p + ["package.json"]) :: p <= root
  }

  method ResolvePackageRoot(fs: FileSystem, modulePath: Path) returns (r: Option<Path>)
    ensures r.Some? ==> IsPackageRoot(fs, modulePath, r.value)
    ensures r.None? ==> forall p | p <= Dirname(modulePath) :: !fs.Exists(p + ["package.json"])
  {
    var cursor := Dirname(modulePath);
    while true
      invariant cursor <= Dirname(modulePath)
      invariant forall p | p <= Dirname(modulePath) && fs.Exists(p + ["package.json"]) :: p <= cursor
      decreases |cursor|
    {
      if fs.Exists(cursor + ["package.json"]) {
        return Some(cursor);
      }
      var parent := Dirname(cursor);
      if parent == cursor {
        return None;  // "package root not found"
      }
      forall p | p <= Dirname(modulePath) && fs.Exists(p + ["package.json"]) ensures p <= parent {
        assert p <= cursor && p != cursor;
      }
      cursor := parent;
    }
  }

  // ---------------------------------------------------------------- common ancestor

  /** `p` is the parent directory of `a`: the one ancestor the climb towards `p` stops short of. */
  ghost predicate IsParentOf(p: Path, a: Path) {
    a != [] && p == Dirname(a)
  }

  /** A listed path `s` above the first one such that all others lie under the same child of `s`. */
  ghost predicate Blocks(paths: seq<Path>, s: Path)
    requires paths != []
  {
    && s in paths && s < paths[0]
    && forall q | q in paths :: q == s || paths[0][..|s| + 1] <= q
  }

  ghost predicate IsCommonPrefix(paths: seq<Path>, c: Path) {
    forall p | p in paths :: c <= p
  }

  /** The state of the ancestor loop once the first `n` paths have been taken in. */
  ghost predicate Climbed(paths: seq<Path>, n: nat, a: Path)
    requires 0 < n <= |paths|
  {
    && a <= paths[0]
    && (forall j | 0 <= j < n :: a <= paths[j] || IsParentOf(paths[j], a))
    && (forall c | IsCommonPrefix(paths, c) :: c <= a)
    && (forall s | Blocks(paths, s) :: paths[0][..|s| + 1] <= a)
  }

  lemma ClimbedStart(paths: seq<Path>)
    requires paths != []
    ensures Climbed(paths, 1, paths[0])
  {
    assert paths[0] in paths;
  }

  lemma ClimbStep(paths: seq<Path>, n: nat, a: Path)
    requires 0 < n < |paths| && forall p | p in paths :: Normal(p)
    requires Climbed(paths, n, a) && Normal(a) && StartsUp(Relative(a, paths[n]))
    ensures a != [] && Climbed(paths, n, Dirname(a))
  {
    StartsUpMeaning(a, paths[n]);
    var up := Dirname(a);
    forall c | IsCommonPrefix(paths, c) ensures c <= up {
      assert c <= a && c <= paths[n];
    }
    forall s | Blocks(paths, s) ensures paths[0][..|s| + 1] <= up {
      var child := paths[0][..|s| + 1];
      assert child <= a && s == Dirname(child);
      assert paths[n] == s || child <= paths[n];
      assert child != a;
    }
  }

  lemma ClimbNext(paths: seq<Path>, n: nat, a: Path)
    requires 0 < n < |paths| && forall p | p in paths :: Normal(p)
    requires Climbed(paths, n, a) && Normal(a) && !StartsUp(Relative(a, paths[n]))
    ensures Climbed(paths, n + 1, a)
  {
    StartsUpMeaning(a, paths[n]);
  }

  lemma ClimbedEnd(paths: seq<Path>, a: Path)
    requires paths != [] && Climbed(paths, |paths|, a)
    ensures IsCommonPrefix(paths, a) <==> !exists s :: Blocks(paths, s)
  {
    if IsCommonPrefix(paths, a) {
      assert forall s | s in paths && s < paths[0] :: a <= s;
    } else {
      var p :| p in paths && !(a <= p);
      assert IsParentOf(p, a);
      assert paths[0][..|p| + 1] == a;
      forall q | q in paths ensures q == p || paths[0][..|p| + 1] <= q {
        assert a <= q || IsParentOf(q, a);
      }
      assert Blocks(paths, p);
    }
  }

  /**
   * The ancestor the loop settles on. It never overshoots, and it is an ancestor of every path
   * unless a listed path is the parent directory that the climb stops just short of.
   */
  method ResolveCommonAncestor(paths: seq<Path>) returns (ancestor: Path)
    requires paths != [] && forall p | p in paths :: Normal(p)
    ensures ancestor <= paths[0]
    ensures forall c | IsCommonPrefix(paths, c) :: c <= ancestor
    ensures IsCommonPrefix(paths, ancestor) <==> !exists s :: Blocks(paths, s)
  {
    ancestor := paths[0];
    ClimbedStart(paths);
    for i := 1 to |paths|
      invariant Climbed(paths, i, ancestor) && Normal(ancestor)
    {
      while StartsUp(Relative(ancestor, paths[i]))
        invariant Climbed(paths, i, ancestor) && Normal(ancestor)
        decreases |ancestor|
      {
        ClimbStep(paths, i, ancestor);
        ancestor := Dirname(ancestor);  // never already the root
      }
      ClimbNext(paths, i, ancestor);
    }
    ClimbedEnd(paths, ancestor);
  }

  /** A listed parent directory is overlooked: whatever the climb from /a/b towards /a returns, it is not above /a. */
  lemma ParentDirectoryBlocks(a: string, b: string, ancestor: Path)
    requires IsCommonPrefix([[a, b], [a]], ancestor) <==> !exists s :: Blocks([[a, b], [a]], s)
    ensures !IsCommonPrefix([[a, b], [a]], ancestor)
  {
    assert [a] in [[a, b], [a]];
    assert [a, b][..2] == [a, b] && [a] < [a, b];
    assert Blocks([[a, b], [a]], [a]);
  }

  /** With a directory in front of regular files only, nothing blocks: the loop finds a common ancestor. */
  lemma FilesDoNotBlock(fs: FileSystem, packageRoot: Path, modulePath: Path, files: seq<Path>, s: Path)
    requires fs.WellFormed() && modulePath in fs.files && packageRoot <= Dirname(modulePath)
    requires forall f | f in files :: f in fs.files
    ensures !Blocks([packageRoot] + files, s)
  {
    if s in files && s < packageRoot {
      assert s < modulePath;
      FileAncestorsAreDirs(fs, modulePath, s);
    }
  }

  // ---------------------------------------------------------------- the copy

  /** Where `source` goes: `path.join(isolatedRoot, path.relative(copyRoot, source))`. */
  function TargetPath(copyRoot: Path, isolatedRoot: Path, source: Path): (r: Path)
    requires Normal(isolatedRoot)
    ensures Normal(r)
  {
    Resolve(isolatedRoot, Relative(copyRoot, source))
  }

  /** Files under the copy root keep their place below it. */
  lemma TargetRebases(copyRoot: Path, isolatedRoot: Path, source: Path)
    requires Normal(isolatedRoot) && Normal(source) && copyRoot <= source
    ensures TargetPath(copyRoot, isolatedRoot, source) == isolatedRoot + source[|copyRoot|..]
  {
    CommonLengthPrefix(copyRoot, source);
    assert Ups(0) + source[|copyRoot|..] == source[|copyRoot|..];
    ResolveDescends(isolatedRoot, source[|copyRoot|..]);
  }

  function Rebase(copyRoot: Path, isolatedRoot: Path, p: Path): Path
    requires copyRoot <= p
  {
    isolatedRoot + p[|copyRoot|..]
  }

  /** The original files, untouched, together with a copy of each listed file under the isolated root. */
  ghost predicate IsCopyOf(fs: FileSystem, files: set<Path>, copyRoot: Path, isolatedRoot: Path,
                           copied: map<Path, seq<Specifier>>)
  {
    && (forall p | p in fs.files :: p in copied && copied[p] == fs.files[p])
    && (forall p | p in files :: copyRoot <= p && p in fs.files)
    && (forall p | p in files ::
          Rebase(copyRoot, isolatedRoot, p) in copied
          && copied[Rebase(copyRoot, isolatedRoot, p)] == fs.files[p])
    && (forall q | q in copied && q !in fs.files ::
          isolatedRoot <= q && Rebase(isolatedRoot, copyRoot, q) in files)
  }

  lemma RebaseInverse(from: Path, to: Path, p: Path)
    requires from <= p
    ensures to <= Rebase(from, to, p) && Rebase(to, from, Rebase(from, to, p)) == p
    ensures |Rebase(from, to, p)| - |to| == |p| - |from|
  {
  }

  lemma CopyOne(fs: FileSystem, files: set<Path>, copyRoot: Path, isolatedRoot: Path,
                copied: map<Path, seq<Specifier>>, source: Path)
    requires forall p | p in fs.files :: !(isolatedRoot <= p)
    requires IsCopyOf(fs, files, copyRoot, isolatedRoot, copied)
    requires copyRoot <= source && source in fs.files
    ensures IsCopyOf(fs, files + {source}, copyRoot, isolatedRoot,
                     copied[Rebase(copyRoot, isolatedRoot, source) := copied[source]])
  {
    var target := Rebase(copyRoot, isolatedRoot, source);
    RebaseInverse(copyRoot, isolatedRoot, source);
    forall p | p in files ensures Rebase(copyRoot, isolatedRoot, p) == target ==> p == source {
      RebaseInverse(copyRoot, isolatedRoot, p);
    }
  }

  const TEMP_DIRECTORY := ".openclaw-config-doc-cache"

  function Basename(p: Path): string {
    if p == [] then "" else p[|p| - 1]
  }

  /** The directory `mkdtemp` makes, given the random characters it picks. */
  function IsolatedRoot(repoRoot: Path, packageRoot: Path, random: string): Path {
    repoRoot + [TEMP_DIRECTORY, Basename(packageRoot) + "-" + random]
  }

  /** `mkdtemp` never returns a directory that already has something in it. */
  ghost predicate FreshDirectory(fs: FileSystem, modulePath: Path, repoRoot: Path, random: string) {
    forall p, packageRoot | p in fs.files && IsPackageRoot(fs, modulePath, packageRoot) ::
      !(IsolatedRoot(repoRoot, packageRoot, random) <= p)
  }

  lemma IsolatedRootNormal(repoRoot: Path, packageRoot: Path, random: string)
    requires Normal(repoRoot) && random != "" && '.' !in random
    ensures Normal(IsolatedRoot(repoRoot, packageRoot, random))
  {
    var name := Basename(packageRoot) + "-" + random;
    assert '.' != name[|name| - 1] by {
      assert name[|name| - 1] == random[|random| - 1] && random[|random| - 1] in random;
    }
  }

  datatype IsolatedModule = IsolatedModule(
    files: map<Path, seq<Specifier>>, graph: set<Path>, packageRoot: Path, copyRoot: Path, isolatedRoot: Path,
    copiedModulePath: Path)

  /** The common ancestor of the package root and the collected files is above all of them. */
  method ResolveCopyRoot(fs: FileSystem, packageRoot: Path, modulePath: Path, sources: seq<Path>)
    returns (copyRoot: Path)
    requires fs.WellFormed() && modulePath in fs.files && packageRoot <= Dirname(modulePath)
    requires forall f | f in sources :: f in fs.files
    ensures Normal(copyRoot) && copyRoot <= packageRoot
    ensures forall f | f in sources :: copyRoot <= f
    ensures forall c | IsCommonPrefix([packageRoot] + sources, c) :: c <= copyRoot
  {
    var paths := [packageRoot] + sources;
    forall p | p in paths ensures Normal(p) {
      assert p == packageRoot || p in sources;
    }
    copyRoot := ResolveCommonAncestor(paths);
    forall s ensures !Blocks(paths, s) {
      FilesDoNotBlock(fs, packageRoot, modulePath, sources, s);
    }
    assert forall f | f in sources :: f in paths;
  }

  method CopyFiles(fs: FileSystem, sources: seq<Path>, copyRoot: Path, isolatedRoot: Path)
    returns (files: map<Path, seq<Specifier>>)
    requires fs.NormalFiles() && Normal(isolatedRoot)
    requires forall p | p in fs.files :: !(isolatedRoot <= p)
    requires forall f | f in sources :: f in fs.files && copyRoot <= f
    ensures IsCopyOf(fs, Elements(sources), copyRoot, isolatedRoot, files)
  {
    files := fs.files;
    for i := 0 to |sources|
      invariant IsCopyOf(fs, Elements(sources[..i]), copyRoot, isolatedRoot, files)
    {
      var source := sources[i];
      assert source in sources;
      var target := TargetPath(copyRoot, isolatedRoot, source);
      TargetRebases(copyRoot, isolatedRoot, source);
      CopyOne(fs, Elements(sources[..i]), copyRoot, isolatedRoot, files, source);
      files := files[target := files[source]];
      assert Elements(sources[..i + 1]) == Elements(sources[..i]) + {source};
    }
    assert sources[..|sources|] == sources;
  }

  /** Collects the module's import graph and copies it, rebased, under a fresh directory of the repository. */
  method CopyModuleImportGraphWithoutNodeModules(fs: FileSystem, modulePath: Path, repoRoot: Path, random: string)
    returns (r: Option<IsolatedModule>)
    requires fs.WellFormed() && Normal(modulePath) && Normal(repoRoot)
    requires random != "" && '.' !in random && FreshDirectory(fs, modulePath, repoRoot, random)
    ensures r.Some? <==>
            modulePath in fs.files && exists p :: p <= Dirname(modulePath) && fs.Exists(p + ["package.json"])
    ensures r.Some? ==>
              var m := r.value;
              && IsImportGraph(fs, modulePath, m.graph)
              && IsPackageRoot(fs, modulePath, m.packageRoot)
              && m.isolatedRoot == IsolatedRoot(repoRoot, m.packageRoot, random)
              && Normal(m.copyRoot) && m.copyRoot <= m.packageRoot
              && IsCopyOf(fs, m.graph, m.copyRoot, m.isolatedRoot, m.files)
              && m.copiedModulePath == Rebase(m.copyRoot, m.isolatedRoot, modulePath)
  {
    var root := ResolvePackageRoot(fs, modulePath);
    if root.None? {
      return None;
    }
    var packageRoot := root.value;
    var collected := CollectRelativeImportGraph(fs, modulePath);
    if collected.None? {
      return None;
    }
    var sources := collected.value;
    assert forall f | f in sources :: f in Elements(sources);
    var copyRoot := ResolveCopyRoot(fs, packageRoot, modulePath, sources);
    var isolatedRoot := IsolatedRoot(repoRoot, packageRoot, random);
    IsolatedRootNormal(repoRoot, packageRoot, random);
    var files := CopyFiles(fs, sources, copyRoot, isolatedRoot);
    assert modulePath in Elements(sources);
    var copiedModulePath := TargetPath(copyRoot, isolatedRoot, modulePath);
    TargetRebases(copyRoot, isolatedRoot, modulePath);
    return Some(IsolatedModule(files, Elements(sources), packageRoot, copyRoot, isolatedRoot, copiedModulePath));
  }

  /** The fresh directory lies in the cache directory and is named after the package. */
  lemma IsolatedRootOf(package: string)
    ensures IsolatedRoot(["repo"], ["r", package], "Xy12") ==
            ["repo", ".openclaw-config-doc-cache", package + "-" + "Xy12"]
    ensures IsolatedRoot(["repo"], [], "Xy12") == ["repo", ".openclaw-config-doc-cache", "" + "-" + "Xy12"]
  {
  }

  /** A package.json marks a package root whether it is a file or a directory. */
  lemma PackageRootMeaning(fs: FileSystem, modulePath: Path, root: Path, p: Path)
    requires IsPackageRoot(fs, modulePath, root)
    ensures root + ["package.json"] in fs.files || root + ["package.json"] in fs.dirs
    ensures p <= Dirname(modulePath) && p + ["package.json"] in fs.files ==> p <= root
    ensures p <= Dirname(modulePath) && p + ["package.json"] in fs.dirs ==> p <= root
  {
  }
}
