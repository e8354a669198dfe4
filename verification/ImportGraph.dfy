/** The import-graph walk and the isolated copy of scripts/load-channel-config-surface.ts. */
module ImportGraph {
  import opened Base
  import opened PosixPath

  /** The specifier of one import, split at its slashes. */
  type Specifier = seq<string>

  /** Regular files with the specifiers they import, in source order, and the directories. */
  datatype FileSystem = FileSystem(files: map<Path, seq<Specifier>>, dirs: set<Path>) {

    ghost predicate NormalFiles() {
      forall p | p in files :: Normal(p)
    }

    /** Files sit in directories, directories in directories, and no file is also a directory. */
    ghost predicate WellFormed() {
      && NormalFiles()
      && (forall p | p in dirs :: Normal(p))
      && (forall p | p in files :: p !in dirs && Dirname(p) in dirs)
      && (forall p | p in dirs :: Dirname(p) in dirs)
    }

    predicate Exists(p: Path) {
      p in files || p in dirs
    }
  }

  const SOURCE_FILE_EXTENSIONS: seq<string> :=
    [".ts", ".tsx", ".mts", ".cts", ".js", ".jsx", ".mjs", ".cjs"]

  predicate IsRelative(spec: Specifier) {
    spec != [] && spec[0] != "" && spec[0][0] == '.'
  }

  // ---------------------------------------------------------------- candidates

  /** `stem` with each of the extensions in turn. */
  function StemCandidates(stem: Path, extensions: seq<string>): seq<Path>
    decreases |extensions|, stem
  {
    if extensions == [] then []
    else StemCandidates(stem, extensions[..|extensions| - 1]) + [AppendText(stem, extensions[|extensions| - 1])]
  }

  function IndexFile(dir: Path, extension: string): Path {
    dir + ["index" + extension]
  }

  /** `base` with each extension, each followed by the index file of directory `base` with that extension. */
  function PlainCandidates(base: Path, extensions: seq<string>): seq<Path>
    decreases |extensions|, base
  {
    if extensions == [] then []
    else
      var last := extensions[|extensions| - 1];
      PlainCandidates(base, extensions[..|extensions| - 1]) + [AppendText(base, last), IndexFile(base, last)]
  }

  /** Every path tried for `base`, in order, repetitions included. */
  function Candidates(base: Path): seq<Path> {
    [base] +
    if Extension(base) != "" then StemCandidates(Stem(base), SOURCE_FILE_EXTENSIONS)
    else PlainCandidates(base, SOURCE_FILE_EXTENSIONS)
  }

  /** An insertion-ordered set after one `add`. */
  function AddTo<T(==)>(s: seq<T>, x: T): seq<T> {
    if x in s then s else s + [x]
  }

  function AddAll<T(==)>(s: seq<T>, xs: seq<T>): seq<T>
    decreases |xs|
  {
    if xs == [] then s else AddAll(AddTo(s, xs[0]), xs[1..])
  }

  function FirstFile(files: set<Path>, candidates: seq<Path>): (r: Option<Path>)
    ensures r.Some? ==> r.value in files
  {
    if candidates == [] then None
    else if candidates[0] in files then Some(candidates[0])
    else FirstFile(files, candidates[1..])
  }

  /** The first existing file does not depend on whether repeated candidates were dropped. */
  lemma {:induction false} FirstFileAddAll(files: set<Path>, s: seq<Path>, xs: seq<Path>)
    ensures FirstFile(files, AddAll(s, xs)) == FirstFile(files, s + xs)
    decreases |xs|
  {
    if xs == [] {
      assert s + xs == s;
    } else {
      FirstFileAddAll(files, AddTo(s, xs[0]), xs[1..]);
      if xs[0] in s {
        FirstFileSkip(files, s, xs[0], xs[1..]);
        assert s + xs == s + [xs[0]] + xs[1..];
      } else {
        assert s + [xs[0]] + xs[1..] == s + xs;
      }
    }
  }

  lemma {:induction false} FirstFileSkip(files: set<Path>, s: seq<Path>, x: Path, xs: seq<Path>)
    requires x in s
    ensures FirstFile(files, s + [x] + xs) == FirstFile(files, s + xs)
  {
    assert (s + [x] + xs)[0] == s[0] && (s + xs)[0] == s[0];
    if s[0] !in files {
      assert (s + [x] + xs)[1..] == s[1..] + [x] + xs;
      assert (s + xs)[1..] == s[1..] + xs;
      if x in s[1..] {
        FirstFileSkip(files, s[1..], x, xs);
      } else {
        FirstFileDrop(files, s[1..], x, xs);
      }
    }
  }

  lemma {:induction false} FirstFileDrop(files: set<Path>, s: seq<Path>, x: Path, xs: seq<Path>)
    requires x !in files
    ensures FirstFile(files, s + [x] + xs) == FirstFile(files, s + xs)
  {
    if s == [] {
      assert s + [x] + xs == [x] + xs && s + xs == xs;
    } else {
      assert (s + [x] + xs)[1..] == s[1..] + [x] + xs;
      assert (s + xs)[1..] == s[1..] + xs;
      FirstFileDrop(files, s[1..], x, xs);
    }
  }

  lemma {:induction false} AddAllSnoc<T>(s: seq<T>, xs: seq<T>, x: T)
    ensures AddAll(s, xs + [x]) == AddTo(AddAll(s, xs), x)
    decreases |xs|
  {
    if xs == [] {
      assert xs + [x] == [x] && [x][1..] == [];
    } else {
      assert (xs + [x])[1..] == xs[1..] + [x];
      AddAllSnoc(AddTo(s, xs[0]), xs[1..], x);
    }
  }

  /** The candidate set, built in insertion order. */
  method ResolveImportCandidates(base: Path) returns (candidates: seq<Path>)
    ensures candidates == AddAll([], Candidates(base))
  {
    if Extension(base) != "" {
      candidates := CollectStemCandidates(base, Stem(base), SOURCE_FILE_EXTENSIONS);
    } else {
      candidates := CollectPlainCandidates(base, SOURCE_FILE_EXTENSIONS);
    }
  }

  method CollectStemCandidates(base: Path, stem: Path, extensions: seq<string>) returns (candidates: seq<Path>)
    ensures candidates == AddAll([], [base] + StemCandidates(stem, extensions))
  {
    candidates := [base];
    for i := 0 to |extensions|
      invariant candidates == AddAll([], [base] + StemCandidates(stem, extensions[..i]))
    {
      var next := AppendText(stem, extensions[i]);
      candidates := AddTo(candidates, next);
      AddAllSnoc([], [base] + StemCandidates(stem, extensions[..i]), next);
      StemCandidatesNext(base, stem, extensions, i);
    }
    assert extensions[..|extensions|] == extensions;
  }

  lemma StemCandidatesNext(base: Path, stem: Path, extensions: seq<string>, i: nat)
    requires i < |extensions|
    ensures [base] + StemCandidates(stem, extensions[..i + 1]) ==
            [base] + StemCandidates(stem, extensions[..i]) + [AppendText(stem, extensions[i])]
  {
    assert extensions[..i + 1][..i] == extensions[..i];
  }

  method CollectPlainCandidates(base: Path, extensions: seq<string>) returns (candidates: seq<Path>)
    ensures candidates == AddAll([], [base] + PlainCandidates(base, extensions))
  {
    candidates := [base];
    for i := 0 to |extensions|
      invariant candidates == AddAll([], [base] + PlainCandidates(base, extensions[..i]))
    {
      var plain, index := AppendText(base, extensions[i]), IndexFile(base, extensions[i]);
      candidates := AddTo(AddTo(candidates, plain), index);
      AddAllSnoc([], [base] + PlainCandidates(base, extensions[..i]), plain);
      AddAllSnoc([], [base] + PlainCandidates(base, extensions[..i]) + [plain], index);
      PlainCandidatesNext(base, extensions, i);
    }
    assert extensions[..|extensions|] == extensions;
  }

  lemma PlainCandidatesNext(base: Path, extensions: seq<string>, i: nat)
    requires i < |extensions|
    ensures [base] + PlainCandidates(base, extensions[..i + 1]) ==
            [base] + PlainCandidates(base, extensions[..i])
              + [AppendText(base, extensions[i])] + [IndexFile(base, extensions[i])]
  {
    assert extensions[..i + 1][..i] == extensions[..i];
  }

  // ---------------------------------------------------------------- resolution

  /** The file an import resolves to: the first candidate that is a file. */
  function ImportTarget(fs: FileSystem, from: Path, spec: Specifier): (r: Option<Path>)
    requires Normal(from)
    ensures r.Some? ==> r.value in fs.files
  {
    FirstFile(fs.files.Keys, Candidates(Resolve(Dirname(from), spec)))
  }

  method ResolveRelativeImportPath(fs: FileSystem, from: Path, spec: Specifier) returns (r: Option<Path>)
    requires Normal(from)
    ensures r == ImportTarget(fs, from, spec)
  {
    var base := Resolve(Dirname(from), spec);
    var candidates := ResolveImportCandidates(base);
    FirstFileAddAll(fs.files.Keys, [], Candidates(base));
    assert [] + Candidates(base) == Candidates(base);
    for i := 0 to |candidates|
      invariant FirstFile(fs.files.Keys, candidates) == FirstFile(fs.files.Keys, candidates[i..])
    {
      if candidates[i] in fs.files {
        return Some(candidates[i]);
      }
    }
    return None;
  }

  /** Import number `i` of file `from` is relative and resolves to `to`. */
  ghost predicate ImportsAt(fs: FileSystem, from: Path, i: nat, to: Path)
    requires Normal(from) && from in fs.files && i < |fs.files[from]|
  {
    IsRelative(fs.files[from][i]) && ImportTarget(fs, from, fs.files[from][i]) == Some(to)
  }

  /** File `from` imports file `to` through some relative specifier. */
  ghost predicate Imports(fs: FileSystem, from: Path, to: Path)
    requires Normal(from)
  {
    from in fs.files && exists i: nat :: i < |fs.files[from]| && ImportsAt(fs, from, i, to)
  }

  ghost predicate ClosedUnderImports(fs: FileSystem, s: set<Path>)
    requires fs.NormalFiles()
  {
    forall f, g | f in s && f in fs.files && Imports(fs, f, g) :: g in s
  }

  /** `s` is the least set that contains `entry` and every file a member imports. */
  ghost predicate IsImportGraph(fs: FileSystem, entry: Path, s: set<Path>)
    requires fs.NormalFiles()
  {
    && s <= fs.files.Keys
    && entry in s
    && ClosedUnderImports(fs, s)
    && forall t: set<Path> | entry in t && ClosedUnderImports(fs, t) :: s <= t
  }

  /** `p` belongs to every set that contains `entry` and is closed under imports. */
  ghost predicate Needed(fs: FileSystem, entry: Path, p: Path)
    requires fs.NormalFiles()
  {
    forall t: set<Path> | entry in t && ClosedUnderImports(fs, t) :: p in t
  }

  /** Everything a needed file imports is needed. */
  lemma NeededImport(fs: FileSystem, entry: Path, f: Path, g: Path)
    requires fs.NormalFiles() && f in fs.files && Needed(fs, entry, f) && Imports(fs, f, g)
    ensures Needed(fs, entry, g)
  {
  }

  predicate Grows(target: nat -> Option<Path>, found: nat -> seq<Path>, i: nat) {
    found(i + 1) == found(i) + if target(i).Some? then [target(i).value] else []
  }

  /** A list that grows by what is found at one place at a time holds exactly what is found. */
  lemma {:induction false} FoundInSteps(target: nat -> Option<Path>, found: nat -> seq<Path>, n: nat, p: Path)
    requires found(0) == [] && forall i: nat | i < n :: Grows(target, found, i)
    ensures p in found(n) <==> exists i: nat :: i < n && target(i) == Some(p)
  {
    if n > 0 {
      FoundInSteps(target, found, n - 1, p);
      assert Grows(target, found, n - 1);
      if p in found(n) && p !in found(n - 1) {
        assert target(n - 1) == Some(p);
      }
    }
  }

  /** What import number `i` of file `from` resolves to, if it is relative. */
  function TargetOf(fs: FileSystem, from: Path): nat -> Option<Path>
    requires Normal(from) && from in fs.files
  {
    (i: nat) =>
      if i < |fs.files[from]| && IsRelative(fs.files[from][i]) then ImportTarget(fs, from, fs.files[from][i]) else None
  }

  /** The files that the first `n` imports of `from` resolve to, in source order. */
  function Targets(fs: FileSystem, from: Path, n: nat): (r: seq<Path>)
    requires Normal(from) && from in fs.files && n <= |fs.files[from]|
  {
    if n == 0 then []
    else
      var spec := fs.files[from][n - 1];
      var target := if IsRelative(spec) then ImportTarget(fs, from, spec) else None;
      Targets(fs, from, n - 1) + if target.Some? then [target.value] else []
  }

  lemma NextTargets(fs: FileSystem, from: Path, n: nat)
    requires Normal(from) && from in fs.files && 0 < n <= |fs.files[from]|
    ensures var target := TargetOf(fs, from)(n - 1);
            Targets(fs, from, n) == Targets(fs, from, n - 1) + if target.Some? then [target.value] else []
  {
  }

  function TargetsTo(fs: FileSystem, from: Path): nat -> seq<Path>
    requires Normal(from) && from in fs.files
  {
    (i: nat) => if i <= |fs.files[from]| then Targets(fs, from, i) else []
  }

  lemma TargetsGrow(fs: FileSystem, from: Path, i: nat)
    requires Normal(from) && from in fs.files && i < |fs.files[from]|
    ensures Grows(TargetOf(fs, from), TargetsTo(fs, from), i)
  {
    NextTargets(fs, from, i + 1);
  }

  lemma TargetsEnd(fs: FileSystem, from: Path, n: nat)
    requires Normal(from) && from in fs.files && n <= |fs.files[from]|
    ensures TargetsTo(fs, from)(0) == [] && TargetsTo(fs, from)(n) == Targets(fs, from, n)
  {
  }

  lemma TargetsAreFound(fs: FileSystem, from: Path, p: Path)
    requires Normal(from) && from in fs.files
    ensures p in Targets(fs, from, |fs.files[from]|) <==>
            exists i: nat :: i < |fs.files[from]| && TargetOf(fs, from)(i) == Some(p)
  {
    var target, found, n := TargetOf(fs, from), TargetsTo(fs, from), |fs.files[from]|;
    forall i: nat | i < n ensures Grows(target, found, i) {
      TargetsGrow(fs, from, i);
    }
    TargetsEnd(fs, from, n);
    FoundInSteps(target, found, n, p);
  }

  lemma TargetsAre(fs: FileSystem, from: Path, i: nat, p: Path)
    requires Normal(from) && from in fs.files && i < |fs.files[from]|
    ensures TargetOf(fs, from)(i) == Some(p) <==> ImportsAt(fs, from, i, p)
  {
  }

  /** A file's targets are exactly the files it imports. */
  lemma AllTargets(fs: FileSystem, from: Path, p: Path)
    requires Normal(from) && from in fs.files
    ensures p in Targets(fs, from, |fs.files[from]|) <==> Imports(fs, from, p)
  {
    var target, n := TargetOf(fs, from), |fs.files[from]|;
    TargetsAreFound(fs, from, p);
    forall i: nat | i < n ensures target(i) == Some(p) <==> ImportsAt(fs, from, i, p) {
      TargetsAre(fs, from, i, p);
    }
  }

  /** Scans one file: pushes every resolved relative import. */
  method PushImports(fs: FileSystem, current: Path, queue: seq<Path>) returns (pushed: seq<Path>)
    requires Normal(current) && current in fs.files
    ensures pushed == queue + Targets(fs, current, |fs.files[current]|)
  {
    pushed := queue;
    var specifiers := fs.files[current];
    for i := 0 to |specifiers|
      invariant pushed == queue + Targets(fs, current, i)
    {
      if !IsRelative(specifiers[i]) {
        continue;
      }
      var resolved := ResolveRelativeImportPath(fs, current, specifiers[i]);
      if resolved.Some? {
        pushed := pushed + [resolved.value];
      }
    }
  }

  /** What the worklist knows: everything discovered or queued is needed, and no import of a discovered file is lost. */
  ghost predicate Collecting(fs: FileSystem, entry: Path, discovered: seq<Path>, queue: seq<Path>)
    requires fs.NormalFiles()
  {
    && Distinct(discovered)
    && (forall p | p in discovered :: p in fs.files)
    && (forall q | q in queue :: q == entry || q in fs.files)
    && (forall p | p in queue || p in discovered :: Needed(fs, entry, p))
    && (entry in queue || entry in discovered)
    && (forall f, g | f in discovered && Imports(fs, f, g) :: g in discovered || g in queue)
  }

  lemma CollectingSkip(fs: FileSystem, entry: Path, discovered: seq<Path>, queue: seq<Path>, current: Path)
    requires fs.NormalFiles() && Collecting(fs, entry, discovered, queue + [current]) && current in discovered
    ensures Collecting(fs, entry, discovered, queue)
  {
  }

  lemma CollectingScan(fs: FileSystem, entry: Path, discovered: seq<Path>, queue: seq<Path>, current: Path)
    requires fs.NormalFiles() && Collecting(fs, entry, discovered, queue + [current])
    requires current !in discovered && current in fs.files
    ensures Collecting(fs, entry, discovered + [current], queue + Targets(fs, current, |fs.files[current]|))
  {
    var targets := Targets(fs, current, |fs.files[current]|);
    assert current in queue + [current];
    forall p ensures p in targets <==> Imports(fs, current, p) {
      AllTargets(fs, current, p);
    }
    forall p | p in queue + targets || p in discovered + [current] ensures Needed(fs, entry, p) {
      if p in targets {
        NeededImport(fs, entry, current, p);
      } else {
        assert p in queue + [current] || p in discovered;
      }
    }
    forall f, g | f in discovered + [current] && Imports(fs, f, g)
      ensures g in discovered + [current] || g in queue + targets
    {
      if f in discovered {
        assert g in discovered || g in queue + [current];
      }
    }
    DistinctSnoc(discovered, current);
  }

  lemma CollectingDone(fs: FileSystem, entry: Path, discovered: seq<Path>)
    requires fs.NormalFiles() && Collecting(fs, entry, discovered, [])
    ensures IsImportGraph(fs, entry, Elements(discovered))
  {
  }

  /** The worklist: a stack of paths and the insertion-ordered set of discovered files. */
  method CollectRelativeImportGraph(fs: FileSystem, entry: Path) returns (r: Option<seq<Path>>)
    requires fs.NormalFiles() && Normal(entry)
    ensures r.Some? <==> entry in fs.files
    ensures r.Some? ==> Distinct(r.value) && IsImportGraph(fs, entry, Elements(r.value))
  {
    var discovered: seq<Path> := [];
    var queue := [entry];
    while queue != []
      invariant Collecting(fs, entry, discovered, queue)
      decreases fs.files.Keys - Elements(discovered), |queue|
    {
      var current := queue[|queue| - 1];
      ghost var popped := queue;
      queue := queue[..|queue| - 1];
      assert popped == queue + [current];
      if current in discovered {
        CollectingSkip(fs, entry, discovered, queue, current);
        continue;
      }
      if current !in fs.files {
        assert current in popped;
        return None;  // reading the file throws
      }
      CollectingScan(fs, entry, discovered, queue, current);
      discovered := discovered + [current];
      assert current in Elements(discovered);
      queue := PushImports(fs, current, queue);
    }
    CollectingDone(fs, entry, discovered);
    return Some(discovered);
  }

  // ---------------------------------------------------------------- what an import finds, told without candidates

  /** The first of the tried paths that is a file, or nothing if none is. */
  predicate FindsFirst(files: set<Path>, tried: seq<Path>, found: Option<Path>) {
    if found.Some? then
      exists i :: 0 <= i < |tried| && tried[i] == found.value && tried[i] in files
                  && forall j | 0 <= j < i :: tried[j] !in files
    else forall i | 0 <= i < |tried| :: tried[i] !in files
  }

  lemma {:induction false} FirstFileFinds(files: set<Path>, tried: seq<Path>)
    ensures FindsFirst(files, tried, FirstFile(files, tried))
  {
    if tried != [] && tried[0] !in files {
      FirstFileFinds(files, tried[1..]);
      var found := FirstFile(files, tried);
      if found.Some? {
        var i :| 0 <= i < |tried[1..]| && tried[1..][i] == found.value && tried[1..][i] in files
                 && forall j | 0 <= j < i :: tried[1..][j] !in files;
        assert tried[i + 1] == found.value;
        assert forall j | 1 <= j < i + 1 :: tried[j] == tried[1..][j - 1];
      } else {
        assert forall i | 1 <= i < |tried| :: tried[i] == tried[1..][i - 1];
      }
    }
  }

  lemma {:induction false} StemCandidatesAre(dir: Path, name: string, extensions: seq<string>)
    ensures |StemCandidates(dir + [name], extensions)| == |extensions|
    ensures forall i | 0 <= i < |extensions| ::
              StemCandidates(dir + [name], extensions)[i] == dir + [name + extensions[i]]
  {
    if extensions != [] {
      var n := |extensions| - 1;
      StemCandidatesAre(dir, name, extensions[..n]);
      Appended(dir, name, extensions[n]);
    }
  }

  lemma {:induction false} PlainCandidatesAt(dir: Path, name: string, extensions: seq<string>, i: nat)
    requires i < |extensions|
    ensures |PlainCandidates(dir + [name], extensions)| == 2 * |extensions|
    ensures PlainCandidates(dir + [name], extensions)[2 * i..2 * i + 2] ==
            [dir + [name + extensions[i]], dir + [name, "index" + extensions[i]]]
  {
    var n := |extensions| - 1;
    PlainCandidatesLength(dir + [name], extensions);
    PlainCandidatesLength(dir + [name], extensions[..n]);
    if i < n {
      PlainCandidatesAt(dir, name, extensions[..n], i);
    } else {
      Appended(dir, name, extensions[n]);
      assert IndexFile(dir + [name], extensions[n]) == dir + [name, "index" + extensions[n]];
    }
  }

  lemma {:induction false} PlainCandidatesLength(base: Path, extensions: seq<string>)
    ensures |PlainCandidates(base, extensions)| == 2 * |extensions|
  {
    if extensions != [] {
      PlainCandidatesLength(base, extensions[..|extensions| - 1]);
    }
  }

  lemma CandidatesOfFileName(dir: Path, name: string, suffix: string)
    requires name != "" && '.' !in suffix
    ensures Candidates(dir + [name + "." + suffix]) ==
            [dir + [name + "." + suffix],
             dir + [name + ".ts"], dir + [name + ".tsx"], dir + [name + ".mts"], dir + [name + ".cts"],
             dir + [name + ".js"], dir + [name + ".jsx"], dir + [name + ".mjs"], dir + [name + ".cjs"]]
  {
    StemOf(dir, name, suffix);
    StemCandidatesAre(dir, name, SOURCE_FILE_EXTENSIONS);
  }

  /**
   * An import that leads to a file name with an extension finds that very file or else, with the name
   * before the last dot, the first that exists of .ts, .tsx, .mts, .cts, .js, .jsx, .mjs and .cjs.
   */
  lemma ImportOfFileName(fs: FileSystem, from: Path, spec: Specifier, dir: Path, name: string, suffix: string)
    requires Normal(from) && name != "" && '.' !in suffix
    requires Resolve(Dirname(from), spec) == dir + [name + "." + suffix]
    ensures FindsFirst(fs.files.Keys,
                       [dir + [name + "." + suffix],
                        dir + [name + ".ts"], dir + [name + ".tsx"], dir + [name + ".mts"], dir + [name + ".cts"],
                        dir + [name + ".js"], dir + [name + ".jsx"], dir + [name + ".mjs"], dir + [name + ".cjs"]],
                       ImportTarget(fs, from, spec))
  {
    CandidatesOfFileName(dir, name, suffix);
    FirstFileFinds(fs.files.Keys, Candidates(dir + [name + "." + suffix]));
  }

  lemma PlainNameHasNoExtension(dir: Path, name: string)
    requires name != "" && '.' !in name[1..]
    ensures Extension(dir + [name]) == ""
  {
    if name[0] == '.' {
      ExtensionOf("", name[1..]);
      assert "" + "." + name[1..] == name;
    } else {
      assert name == [name[0]] + name[1..];
      NoExtension(name);
    }
  }

  lemma CandidatesOfPlainName(dir: Path, name: string)
    requires name != "" && '.' !in name[1..]
    ensures Candidates(dir + [name]) ==
            [dir + [name],
             dir + [name + ".ts"], dir + [name, "index.ts"], dir + [name + ".tsx"], dir + [name, "index.tsx"],
             dir + [name + ".mts"], dir + [name, "index.mts"], dir + [name + ".cts"], dir + [name, "index.cts"],
             dir + [name + ".js"], dir + [name, "index.js"], dir + [name + ".jsx"], dir + [name, "index.jsx"],
             dir + [name + ".mjs"], dir + [name, "index.mjs"], dir + [name + ".cjs"], dir + [name, "index.cjs"]]
  {
    PlainNameHasNoExtension(dir, name);
    var plain := PlainCandidates(dir + [name], SOURCE_FILE_EXTENSIONS);
    PlainPair(dir, name, 0, 0, ".ts", "index.ts");
    PlainPair(dir, name, 1, 2, ".tsx", "index.tsx");
    PlainPair(dir, name, 2, 4, ".mts", "index.mts");
    PlainPair(dir, name, 3, 6, ".cts", "index.cts");
    PlainPair(dir, name, 4, 8, ".js", "index.js");
    PlainPair(dir, name, 5, 10, ".jsx", "index.jsx");
    PlainPair(dir, name, 6, 12, ".mjs", "index.mjs");
    PlainPair(dir, name, 7, 14, ".cjs", "index.cjs");
    assert |plain| == 16 && Extension(dir + [name]) == "";
    SixteenOf(plain);
  }

  lemma SixteenOf<T>(s: seq<T>)
    requires |s| == 16
    ensures s == [s[0], s[1], s[2], s[3], s[4], s[5], s[6], s[7],
                  s[8], s[9], s[10], s[11], s[12], s[13], s[14], s[15]]
  {
  }

  lemma PlainPair(dir: Path, name: string, i: nat, k: nat, extension: string, index: string)
    requires index == "index" + extension && i < 8 && k == 2 * i && SOURCE_FILE_EXTENSIONS[i] == extension
    ensures var plain := PlainCandidates(dir + [name], SOURCE_FILE_EXTENSIONS);
            && |plain| == 16
            && plain[k] == dir + [name + extension] && plain[k + 1] == dir + [name, index]
  {
    var plain := PlainCandidates(dir + [name], SOURCE_FILE_EXTENSIONS);
    PlainCandidatesAt(dir, name, SOURCE_FILE_EXTENSIONS, i);
    PairAt(plain, k, dir + [name + extension], dir + [name, index]);
  }

  lemma PairAt<T>(s: seq<T>, i: nat, x: T, y: T)
    requires i + 2 <= |s| && s[i..i + 2] == [x, y]
    ensures s[i] == x && s[i + 1] == y
  {
    assert s[i] == s[i..i + 2][0] && s[i + 1] == s[i..i + 2][1];
    }

  /**
   * An import that leads to a name without an extension finds a file of that very name or else, extension
   * by extension in the same order, a file with it or the index file with it in the directory of that name.
   */
  lemma ImportOfPlainName(fs: FileSystem, from: Path, spec: Specifier, dir: Path, name: string)
    requires Normal(from) && name != "" && '.' !in name[1..]
    requires Resolve(Dirname(from), spec) == dir + [name]
    ensures FindsFirst(fs.files.Keys,
                       [dir + [name],
                        dir + [name + ".ts"], dir + [name, "index.ts"],
                        dir + [name + ".tsx"], dir + [name, "index.tsx"],
                        dir + [name + ".mts"], dir + [name, "index.mts"],
                        dir + [name + ".cts"], dir + [name, "index.cts"],
                        dir + [name + ".js"], dir + [name, "index.js"],
                        dir + [name + ".jsx"], dir + [name, "index.jsx"],
                        dir + [name + ".mjs"], dir + [name, "index.mjs"],
                        dir + [name + ".cjs"], dir + [name, "index.cjs"]],
                       ImportTarget(fs, from, spec))
  {
    CandidatesOfPlainName(dir, name);
    FirstFileFinds(fs.files.Keys, Candidates(dir + [name]));
  }

  /** From /r/p/f.ts, "./g.js" finds /r/p/g.ts if there is no /r/p/g.js. */
  lemma ScriptNameFindsSource(fs: FileSystem)
    requires ["r", "p", "g.ts"] in fs.files && ["r", "p", "g.js"] !in fs.files && Normal(["r", "p", "f.ts"])
    ensures ImportTarget(fs, ["r", "p", "f.ts"], [".", "g.js"]) == Some(["r", "p", "g.ts"])
  {
    var dir := ["r", "p"];
    HereLeads(["r", "p", "f.ts"], dir, "f.ts", "g.js");
    assert "g" + "." + "js" == "g.js" && "g" + ".ts" == "g.ts";
    ImportOfFileName(fs, ["r", "p", "f.ts"], [".", "g.js"], dir, "g", "js");
    var tried := [dir + ["g" + "." + "js"],
                  dir + ["g" + ".ts"], dir + ["g" + ".tsx"], dir + ["g" + ".mts"], dir + ["g" + ".cts"],
                  dir + ["g" + ".js"], dir + ["g" + ".jsx"], dir + ["g" + ".mjs"], dir + ["g" + ".cjs"]];
    assert dir + ["g.js"] == ["r", "p", "g.js"] && dir + ["g.ts"] == ["r", "p", "g.ts"];
    FindsSecond(fs.files.Keys, tried, ImportTarget(fs, ["r", "p", "f.ts"], [".", "g.js"]));
  }

  lemma FindsSecond(files: set<Path>, tried: seq<Path>, found: Option<Path>)
    requires FindsFirst(files, tried, found) && |tried| >= 2 && tried[0] !in files && tried[1] in files
    ensures found == Some(tried[1])
  {
  }

  lemma HereLeads(from: Path, dir: Path, name: string, other: string)
    requires Normal(from) && from == dir + [name] && IsName(other)
    ensures Resolve(Dirname(from), [".", other]) == dir + [other]
  {
    assert Dirname(from) == dir;
    NormalParts(from, |dir|);
    ResolveSteps(dir, other);
    ResolveConcat(dir, ["."], [other]);
    assert ["."] + [other] == [".", other];
  }

  /** The text of a specifier. */
  function SpecifierText(spec: Specifier): string {
    if spec == [] then "" else if |spec| == 1 then spec[0] else spec[0] + "/" + SpecifierText(spec[1..])
  }

  /** An import is followed exactly when its text starts with a dot. */
  lemma RelativeStartsWithDot(spec: Specifier)
    ensures IsRelative(spec) <==> SpecifierText(spec) != "" && SpecifierText(spec)[0] == '.'
  {
  }

  lemma {:induction false} AddAllMembers<T>(s: seq<T>, xs: seq<T>)
    requires Distinct(s)
    ensures Distinct(AddAll(s, xs)) && forall x :: x in AddAll(s, xs) <==> x in s || x in xs
    decreases |xs|
  {
    if xs != [] {
      if xs[0] !in s {
        DistinctSnoc(s, xs[0]);
      }
      AddAllMembers(AddTo(s, xs[0]), xs[1..]);
      assert forall x :: x in xs <==> x == xs[0] || x in xs[1..];
    }
  }
}
