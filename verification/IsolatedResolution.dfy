/** What the isolated copy preserves: every relative import resolves to the copy of what it resolved to before. */
module IsolatedResolution {
  import opened Base
  import opened PosixPath
  import opened ImportGraph
  import opened IsolatedCopy

  /** A finished copy of `files`, all of which lie under the directory `copyRoot`. */
  datatype Isolation = Isolation(fs: FileSystem, files: set<Path>, copyRoot: Path, isolatedRoot: Path,
                                 copied: map<Path, seq<Specifier>>)
  {
    ghost predicate Valid() {
      && fs.WellFormed() && copyRoot in fs.dirs && Normal(isolatedRoot)
      && IsCopyOf(fs, files, copyRoot, isolatedRoot, copied)
      && (forall p | p in fs.files :: !(isolatedRoot <= p))
    }

    /** Nothing beside the isolated root can be mistaken for it, and no import names it. */
    ghost predicate Fresh() {
      && isolatedRoot != []
      && (forall p | p in fs.files :: p !in Candidates(isolatedRoot))
      && (forall f, spec | f in files && f in fs.files && spec in fs.files[f] :: Basename(isolatedRoot) !in spec)
    }

    /** The file system after the copy. */
    function After(): FileSystem {
      FileSystem(copied, fs.dirs)
    }

    function Copy(f: Path): Path
      requires copyRoot <= f
    {
      Rebase(copyRoot, isolatedRoot, f)
    }

    /** The route of an import, followed from the importing file's directory below the copy root. */
    function Route(f: Path, spec: Specifier): Walk
      requires Normal(f) && copyRoot < f
    {
      WalkFrom(Walk(0, Dirname(f[|copyRoot|..])), spec)
    }
  }

  lemma CopyRootIsProper(iso: Isolation, f: Path)
    requires iso.Valid() && f in iso.files
    ensures iso.copyRoot < f && f in iso.fs.files && Normal(f) && Normal(iso.copyRoot)
    ensures iso.Copy(f) in iso.copied && iso.copied[iso.Copy(f)] == iso.fs.files[f]
  {
    assert iso.copyRoot <= f && f in iso.fs.files;
    assert f !in iso.fs.dirs && f != iso.copyRoot;
  }

  lemma CopyIsNormal(iso: Isolation, f: Path)
    requires Normal(iso.isolatedRoot) && Normal(f) && iso.copyRoot <= f
    ensures Normal(iso.Copy(f))
  {
  }

  /** A path strictly under the isolated root is a file after the copy exactly when it was copied there. */
  lemma CopiedExactly(iso: Isolation, x: Path)
    requires iso.Valid()
    ensures iso.isolatedRoot + x in iso.copied <==> iso.copyRoot + x in iso.files
  {
  }

  // ---------------------------------------------------------------- candidates and rebasing

  function PrefixAll(root: Path, ps: seq<Path>): (r: seq<Path>)
    ensures |r| == |ps|
  {
    if ps == [] then [] else PrefixAll(root, ps[..|ps| - 1]) + [root + ps[|ps| - 1]]
  }

  lemma {:induction false} PlainPrefixed(root: Path, rest: Path, extensions: seq<string>)
    requires rest != []
    ensures PlainCandidates(root + rest, extensions) == PrefixAll(root, PlainCandidates(rest, extensions))
  {
    if extensions != [] {
      var n := |extensions| - 1;
      PlainPrefixed(root, rest, extensions[..n]);
      var before := PlainCandidates(rest, extensions[..n]);
      var plain, index := AppendText(rest, extensions[n]), IndexFile(rest, extensions[n]);
      assert PlainCandidates(rest, extensions) == before + [plain] + [index];
      assert (before + [plain] + [index])[..|before| + 1] == before + [plain];
      assert (before + [plain])[..|before|] == before;
      assert AppendText(root + rest, extensions[n]) == root + plain;
      assert IndexFile(root + rest, extensions[n]) == root + index;
    }
  }

  lemma {:induction false} StemPrefixed(root: Path, rest: Path, extensions: seq<string>)
    requires rest != []
    ensures StemCandidates(root + rest, extensions) == PrefixAll(root, StemCandidates(rest, extensions))
  {
    if extensions != [] {
      var n := |extensions| - 1;
      StemPrefixed(root, rest, extensions[..n]);
      var before := StemCandidates(rest, extensions[..n]);
      var next := AppendText(rest, extensions[n]);
      assert (before + [next])[..|before|] == before;
      assert AppendText(root + rest, extensions[n]) == root + next;
    }
  }

  lemma {:induction false} PrefixAllCons(root: Path, p: Path, ps: seq<Path>)
    ensures PrefixAll(root, [p] + ps) == [root + p] + PrefixAll(root, ps)
  {
    if ps == [] {
      assert [p] + ps == [p];
    } else {
      PrefixAllCons(root, p, ps[..|ps| - 1]);
      assert ([p] + ps)[..|ps|] == [p] + ps[..|ps| - 1];
    }
  }

  /** Below a directory, the candidates are the same wherever the directory is. */
  lemma CandidatesPrefixed(root: Path, rest: Path)
    requires rest != []
    ensures Candidates(root + rest) == PrefixAll(root, Candidates(rest))
  {
    assert Extension(root + rest) == Extension(rest);
    if Extension(rest) != "" {
      assert Stem(root + rest) == root + Stem(rest);
      StemPrefixed(root, Stem(rest), SOURCE_FILE_EXTENSIONS);
      PrefixAllCons(root, rest, StemCandidates(Stem(rest), SOURCE_FILE_EXTENSIONS));
    } else {
      PlainPrefixed(root, rest, SOURCE_FILE_EXTENSIONS);
      PrefixAllCons(root, rest, PlainCandidates(rest, SOURCE_FILE_EXTENSIONS));
    }
  }

  /** Looking the same candidates up in both trees finds a file and its copy. */
  lemma {:induction false} FirstFileCopied(iso: Isolation, ps: seq<Path>)
    requires iso.Valid()
    requires var r := FirstFile(iso.fs.files.Keys, PrefixAll(iso.copyRoot, ps)); r.Some? ==> r.value in iso.files
    ensures var r := FirstFile(iso.fs.files.Keys, PrefixAll(iso.copyRoot, ps));
            FirstFile(iso.copied.Keys, PrefixAll(iso.isolatedRoot, ps)) ==
            if r.Some? then Some(iso.Copy(r.value)) else None
  {
    if ps != [] {
      assert ps == [ps[0]] + ps[1..];
      PrefixAllCons(iso.copyRoot, ps[0], ps[1..]);
      PrefixAllCons(iso.isolatedRoot, ps[0], ps[1..]);
      CopiedExactly(iso, ps[0]);
      if iso.copyRoot + ps[0] !in iso.fs.files {
        FirstFileCopied(iso, ps[1..]);
      } else {
        assert (iso.copyRoot + ps[0])[|iso.copyRoot|..] == ps[0];
      }
    }
  }

  // ---------------------------------------------------------------- imports inside the copied tree

  lemma RouteReplayed(root: Path, below: Path, p: Path, spec: Specifier)
    requires Normal(p) && p == root + below && below != [] && Normal(root) && Normal(Dirname(below))
    ensures var w := WalkFrom(Walk(0, Dirname(below)), spec);
            Resolve(Dirname(p), spec) == Above(root, w.ups) + w.rest
  {
    assert Dirname(p) == Above(root, 0) + Dirname(below);
    ResolveIsWalk(root, Walk(0, Dirname(below)), spec);
  }

  /** Where an import of `f` points before and after the copy, in terms of its route. */
  lemma BasesOfRoute(iso: Isolation, f: Path, spec: Specifier)
    requires iso.Valid() && f in iso.files && iso.copyRoot < f && Normal(f) && Normal(iso.Copy(f))
    ensures var w := iso.Route(f, spec);
            && Resolve(Dirname(f), spec) == Above(iso.copyRoot, w.ups) + w.rest
            && Resolve(Dirname(iso.Copy(f)), spec) == Above(iso.isolatedRoot, w.ups) + w.rest
  {
    RouteReplayed(iso.copyRoot, f[|iso.copyRoot|..], f, spec);
    RouteReplayed(iso.isolatedRoot, f[|iso.copyRoot|..], iso.Copy(f), spec);
  }

  lemma ImportTargetBelow(fs: FileSystem, from: Path, spec: Specifier, root: Path, rest: Path)
    requires Normal(from) && rest != [] && Resolve(Dirname(from), spec) == root + rest
    ensures ImportTarget(fs, from, spec) == FirstFile(fs.files.Keys, PrefixAll(root, Candidates(rest)))
  {
    CandidatesPrefixed(root, rest);
  }

  lemma BasesInside(iso: Isolation, f: Path, spec: Specifier)
    requires iso.Valid() && f in iso.files && iso.copyRoot < f && Normal(f) && Normal(iso.Copy(f))
    requires iso.Route(f, spec).ups == 0
    ensures Resolve(Dirname(f), spec) == iso.copyRoot + iso.Route(f, spec).rest
    ensures Resolve(Dirname(iso.Copy(f)), spec) == iso.isolatedRoot + iso.Route(f, spec).rest
  {
    BasesOfRoute(iso, f, spec);
  }

  lemma SameBaseResolution(iso: Isolation, f: Path, spec: Specifier, rest: Path)
    requires iso.Valid() && Normal(f) && iso.copyRoot <= f && Normal(iso.Copy(f)) && rest != []
    requires Resolve(Dirname(f), spec) == iso.copyRoot + rest
    requires Resolve(Dirname(iso.Copy(f)), spec) == iso.isolatedRoot + rest
    requires var r := ImportTarget(iso.fs, f, spec); r.Some? ==> r.value in iso.files
    ensures var r := ImportTarget(iso.fs, f, spec);
            ImportTarget(iso.After(), iso.Copy(f), spec) == if r.Some? then Some(iso.Copy(r.value)) else None
  {
    ImportTargetBelow(iso.fs, f, spec, iso.copyRoot, rest);
    ImportTargetBelow(iso.After(), iso.Copy(f), spec, iso.isolatedRoot, rest);
    FirstFileCopied(iso, Candidates(rest));
  }

  /** An import whose route stays strictly inside the tree resolves alike in both trees, found or not. */
  lemma InsideResolution(iso: Isolation, f: Path, spec: Specifier)
    requires iso.Valid() && f in iso.files && iso.copyRoot < f && Normal(f) && Normal(iso.Copy(f))
    requires iso.Route(f, spec).ups == 0 && iso.Route(f, spec).rest != []
    requires var r := ImportTarget(iso.fs, f, spec); r.Some? ==> r.value in iso.files
    ensures var r := ImportTarget(iso.fs, f, spec);
            ImportTarget(iso.After(), iso.Copy(f), spec) == if r.Some? then Some(iso.Copy(r.value)) else None
  {
    BasesInside(iso, f, spec);
    SameBaseResolution(iso, f, spec, iso.Route(f, spec).rest);
  }

  // ---------------------------------------------------------------- imports of the root directory itself

  predicate IsIndexOf(root: Path, p: Path) {
    root <= p && |p| == |root| + 1 && "index" <= p[|root|]
  }

  lemma {:induction false} StemsStayBeside(stem: Path, extensions: seq<string>, c: Path)
    requires c in StemCandidates(stem, extensions)
    ensures exists e :: e in extensions && c == AppendText(stem, e)
  {
    var n := |extensions| - 1;
    if c in StemCandidates(stem, extensions[..n]) {
      StemsStayBeside(stem, extensions[..n], c);
    } else {
      assert extensions[n] in extensions;
    }
  }

  lemma {:induction false} PlainShape(base: Path, extensions: seq<string>, c: Path)
    requires c in PlainCandidates(base, extensions)
    ensures exists e :: e in extensions && (c == AppendText(base, e) || c == IndexFile(base, e))
  {
    var n := |extensions| - 1;
    if c in PlainCandidates(base, extensions[..n]) {
      PlainShape(base, extensions[..n], c);
    } else {
      assert extensions[n] in extensions;
    }
  }

  /** The base or an entry of it, or a sibling of the base. */
  predicate IsBeside(base: Path, c: Path) {
    (base <= c && |c| <= |base| + 1) || (base != [] && |c| == |base| && Dirname(c) == Dirname(base))
  }

  /** A candidate either keeps all but the last segment of the base or is an entry of it. */
  lemma CandidateShape(base: Path, c: Path)
    requires c in Candidates(base)
    ensures IsBeside(base, c)
    ensures |c| > |base| && base != [] ==> Extension(base) == "" && IsIndexOf(base, c)
  {
    if c != base {
      if Extension(base) != "" {
        StemsStayBeside(Stem(base), SOURCE_FILE_EXTENSIONS, c);
      } else {
        PlainShape(base, SOURCE_FILE_EXTENSIONS, c);
      }
    }
  }

  lemma BesideKeepsNames(base: Path, c: Path, i: nat)
    requires IsBeside(base, c) && i + 1 < |c|
    ensures i < |base| && c[i] == base[i]
  {
    if !(base <= c) {
      assert c[i] == Dirname(c)[i] && base[i] == Dirname(base)[i];
    }
  }

  /** A path from above a directory that leads into it names it. */
  lemma LeadsInto(above: Path, rest: Path, root: Path, c: Path)
    requires above < root && root < c && IsBeside(above + rest, c)
    ensures root[|root| - 1] in rest
  {
    var i := |root| - 1;
    BesideKeepsNames(above + rest, c, i);
    assert root[i] == c[i] == rest[i - |above|];
  }

  /** The directory an import climbs above is not named by what is left of its route. */
  lemma RouteAvoidsRoot(iso: Isolation, f: Path, spec: Specifier)
    requires iso.Fresh() && iso.copyRoot < f && Normal(f)
    requires f in iso.files && f in iso.fs.files && spec in iso.fs.files[f] && iso.Route(f, spec).ups > 0
    ensures Basename(iso.isolatedRoot) !in iso.Route(f, spec).rest
  {
    if Basename(iso.isolatedRoot) in iso.Route(f, spec).rest {
      WalkNamesAbove(Walk(0, Dirname(f[|iso.copyRoot|..])), spec, Basename(iso.isolatedRoot));
    }
  }

  /** Where an import that climbs above the copy root points once it is followed from the copy. */
  function OutsideBase(iso: Isolation, f: Path, spec: Specifier): Path
    requires Normal(f) && iso.copyRoot < f
  {
    Above(iso.isolatedRoot, iso.Route(f, spec).ups) + iso.Route(f, spec).rest
  }

  /** An import that climbs out of the copied tree never comes back into it. */
  lemma ClimbingMisses(iso: Isolation, f: Path, spec: Specifier, c: Path)
    requires iso.Fresh() && iso.copyRoot < f && Normal(f)
    requires f in iso.files && f in iso.fs.files && spec in iso.fs.files[f] && iso.Route(f, spec).ups > 0
    requires IsBeside(OutsideBase(iso, f, spec), c)
    ensures !(iso.isolatedRoot < c)
  {
    RouteAvoidsRoot(iso, f, spec);
    if iso.isolatedRoot < c {
      LeadsInto(Above(iso.isolatedRoot, iso.Route(f, spec).ups), iso.Route(f, spec).rest, iso.isolatedRoot, c);
    }
  }

  lemma {:induction false} FirstFileMember(files: set<Path>, ps: seq<Path>)
    ensures FirstFile(files, ps).Some? ==> FirstFile(files, ps).value in ps
    ensures forall p | p in ps && p in files :: FirstFile(files, ps).Some?
  {
    if ps != [] && ps[0] !in files {
      FirstFileMember(files, ps[1..]);
    }
  }

  lemma {:induction false} FirstFileConcat(files: set<Path>, ps: seq<Path>, qs: seq<Path>)
    ensures FirstFile(files, ps + qs) ==
            if FirstFile(files, ps).Some? then FirstFile(files, ps) else FirstFile(files, qs)
  {
    if ps == [] {
      assert ps + qs == qs;
    } else {
      assert (ps + qs)[0] == ps[0] && (ps + qs)[1..] == ps[1..] + qs;
      FirstFileConcat(files, ps[1..], qs);
    }
  }

  /** The index-file candidates of the two roots are looked up alike. */
  lemma {:induction false} IndexLookup(iso: Isolation, extensions: seq<string>)
    requires iso.Valid()
    requires forall e | e in extensions :: AppendText(iso.isolatedRoot, e) !in iso.copied && !("index" <= e)
    requires var r := FirstFile(iso.fs.files.Keys, PlainCandidates(iso.copyRoot, extensions));
             r.Some? ==> r.value in iso.files && IsIndexOf(iso.copyRoot, r.value)
    ensures var r := FirstFile(iso.fs.files.Keys, PlainCandidates(iso.copyRoot, extensions));
            FirstFile(iso.copied.Keys, PlainCandidates(iso.isolatedRoot, extensions)) ==
            if r.Some? then Some(iso.Copy(r.value)) else None
  {
    if extensions != [] {
      var n := |extensions| - 1;
      var last := extensions[n];
      var pair := [AppendText(iso.copyRoot, last), IndexFile(iso.copyRoot, last)];
      var pair' := [AppendText(iso.isolatedRoot, last), IndexFile(iso.isolatedRoot, last)];
      FirstFileConcat(iso.fs.files.Keys, PlainCandidates(iso.copyRoot, extensions[..n]), pair);
      FirstFileConcat(iso.copied.Keys, PlainCandidates(iso.isolatedRoot, extensions[..n]), pair');
      assert forall e | e in extensions[..n] :: e in extensions;
      assert last in extensions;
      IndexLookup(iso, extensions[..n]);
      IndexPair(iso, last);
    }
  }

  lemma FirstOfTwo(files: set<Path>, p: Path, q: Path)
    ensures FirstFile(files, [p, q]) == if p in files then Some(p) else if q in files then Some(q) else None
  {
    FirstFileConcat(files, [p], [q]);
    assert [p] + [q] == [p, q] && [p][1..] == [] && [q][1..] == [];
  }

  lemma IndexPair(iso: Isolation, e: string)
    requires iso.Valid() && AppendText(iso.isolatedRoot, e) !in iso.copied && !("index" <= e)
    ensures var r := FirstFile(iso.fs.files.Keys, [AppendText(iso.copyRoot, e), IndexFile(iso.copyRoot, e)]);
            (r.Some? ==> r.value in iso.files && IsIndexOf(iso.copyRoot, r.value)) ==>
            FirstFile(iso.copied.Keys, [AppendText(iso.isolatedRoot, e), IndexFile(iso.isolatedRoot, e)]) ==
            if r.Some? then Some(iso.Copy(r.value)) else None
  {
    var plain, index := AppendText(iso.copyRoot, e), IndexFile(iso.copyRoot, e);
    var plain', index' := AppendText(iso.isolatedRoot, e), IndexFile(iso.isolatedRoot, e);
    FirstOfTwo(iso.fs.files.Keys, plain, index);
    FirstOfTwo(iso.copied.Keys, plain', index');
    CopiedExactly(iso, ["index" + e]);
    assert !IsIndexOf(iso.copyRoot, plain);
    if index in iso.files {
      assert iso.Copy(index) == index';
    }
  }

  lemma ExtensionsAreNotIndexNames()
    ensures forall e | e in SOURCE_FILE_EXTENSIONS :: !("index" <= e)
  {
  }

  lemma DropFirst(p: Path, ps: seq<Path>)
    ensures ([p] + ps)[1..] == ps
  {
  }

  /** No file beside the isolated root extends its name. */
  lemma NothingBeside(iso: Isolation)
    requires iso.Valid() && iso.Fresh() && Extension(iso.isolatedRoot) == ""
    ensures forall e | e in SOURCE_FILE_EXTENSIONS :: AppendText(iso.isolatedRoot, e) !in iso.copied && !("index" <= e)
  {
    ExtensionsAreNotIndexNames();
    forall e | e in SOURCE_FILE_EXTENSIONS ensures AppendText(iso.isolatedRoot, e) !in iso.copied {
      var beside := AppendText(iso.isolatedRoot, e);
      PlainContains(iso.isolatedRoot, SOURCE_FILE_EXTENSIONS, e);
      assert beside in Candidates(iso.isolatedRoot) && beside !in iso.fs.files;
      assert |beside| == |iso.isolatedRoot|;
      if beside in iso.copied {
        CopiedIsInside(iso, beside);
      }
    }
  }

  /** What an import of the copy root directory itself becomes. */
  lemma RootLookup(iso: Isolation)
    requires iso.Valid() && iso.Fresh() && Extension(iso.copyRoot) == "" && Extension(iso.isolatedRoot) == ""
    requires var r := FirstFile(iso.fs.files.Keys, Candidates(iso.copyRoot));
             r.Some? ==> r.value in iso.files && IsIndexOf(iso.copyRoot, r.value)
    ensures var r := FirstFile(iso.fs.files.Keys, Candidates(iso.copyRoot));
            FirstFile(iso.copied.Keys, Candidates(iso.isolatedRoot)) ==
            if r.Some? then Some(iso.Copy(r.value)) else None
  {
    RootItselfIsNoFile(iso);
    DropFirst(iso.copyRoot, PlainCandidates(iso.copyRoot, SOURCE_FILE_EXTENSIONS));
    DropFirst(iso.isolatedRoot, PlainCandidates(iso.isolatedRoot, SOURCE_FILE_EXTENSIONS));
    NothingBeside(iso);
    IndexLookup(iso, SOURCE_FILE_EXTENSIONS);
  }

  lemma RootItselfIsNoFile(iso: Isolation)
    requires iso.Valid()
    ensures iso.copyRoot !in iso.fs.files && iso.isolatedRoot !in iso.copied
  {
    CopiedExactly(iso, []);
    assert iso.isolatedRoot + [] == iso.isolatedRoot && iso.copyRoot + [] == iso.copyRoot;
  }

  lemma {:induction false} PlainContains(base: Path, extensions: seq<string>, e: string)
    requires e in extensions
    ensures AppendText(base, e) in PlainCandidates(base, extensions)
  {
    var n := |extensions| - 1;
    if e != extensions[n] {
      assert e in extensions[..n];
      PlainContains(base, extensions[..n], e);
    }
  }

  lemma CopiedIsInside(iso: Isolation, c: Path)
    requires iso.Valid() && c in iso.copied && c !in iso.fs.files
    ensures iso.isolatedRoot < c
  {
    RootItselfIsNoFile(iso);
    assert iso.isolatedRoot <= c && c != iso.isolatedRoot;
  }

  lemma FreshCandidate(iso: Isolation, c: Path)
    requires iso.Fresh() && c in Candidates(iso.isolatedRoot)
    ensures c !in iso.fs.files && iso.isolatedRoot != []
  {
  }

  /** A candidate of the isolated root that is a file after the copy is an index file copied into it. */
  lemma RootCandidate(iso: Isolation, c: Path)
    requires iso.Valid() && iso.Fresh() && c in Candidates(iso.isolatedRoot) && c in iso.copied
    ensures Extension(iso.isolatedRoot) == "" && IsIndexOf(iso.isolatedRoot, c)
  {
    FreshCandidate(iso, c);
    CopiedIsInside(iso, c);
    CandidateShape(iso.isolatedRoot, c);
  }

  /** The target of an import of the copy root directory sits directly in it. */
  lemma RootTarget(iso: Isolation, g: Path)
    requires iso.copyRoot < g
    requires FirstFile(iso.fs.files.Keys, Candidates(iso.copyRoot)) == Some(g)
    ensures g == iso.copyRoot + [Basename(g)] && Extension(iso.copyRoot) == ""
  {
    FirstFileMember(iso.fs.files.Keys, Candidates(iso.copyRoot));
    CandidateShape(iso.copyRoot, g);
  }

  lemma RootCopyFound(iso: Isolation, g: Path)
    requires iso.Valid() && iso.Fresh() && g in iso.files && g == iso.copyRoot + [Basename(g)]
    requires FirstFile(iso.copied.Keys, Candidates(iso.isolatedRoot)) == Some(iso.Copy(g))
    ensures Extension(iso.isolatedRoot) == "" && "index" <= Basename(g)
  {
    FirstFileMember(iso.copied.Keys, Candidates(iso.isolatedRoot));
    RootCandidate(iso, iso.Copy(g));
    assert iso.Copy(g)[|iso.isolatedRoot|] == Basename(g);
  }

  /** An import of the copy root directory finds the copy of its target only as an index file of a plain-named root. */
  lemma RootResolution(iso: Isolation, g: Path)
    requires iso.Valid() && iso.Fresh() && g in iso.files && iso.copyRoot < g
    requires FirstFile(iso.fs.files.Keys, Candidates(iso.copyRoot)) == Some(g)
    ensures FirstFile(iso.copied.Keys, Candidates(iso.isolatedRoot)) == Some(iso.Copy(g)) <==>
            Extension(iso.isolatedRoot) == "" && "index" <= Basename(g)
  {
    RootTarget(iso, g);
    if Extension(iso.isolatedRoot) == "" && "index" <= Basename(g) {
      RootLookup(iso);
    } else if FirstFile(iso.copied.Keys, Candidates(iso.isolatedRoot)) == Some(iso.Copy(g)) {
      RootCopyFound(iso, g);
    }
  }

  /** The copied tree's directory holds an index file. */
  predicate HasIndex(iso: Isolation) {
    exists e :: e in SOURCE_FILE_EXTENSIONS && IndexFile(iso.copyRoot, e) in iso.files
  }

  lemma {:induction false} PlainHasIndex(base: Path, extensions: seq<string>, e: string)
    requires e in extensions
    ensures IndexFile(base, e) in PlainCandidates(base, extensions)
  {
    var n := |extensions| - 1;
    if e != extensions[n] {
      assert e in extensions[..n];
      PlainHasIndex(base, extensions[..n], e);
    }
  }

  /** A candidate of a plain-named root inside it is one of its index files. */
  lemma InsideCandidate(base: Path, c: Path)
    requires base != [] && Extension(base) == "" && c in Candidates(base) && |c| > |base|
    ensures exists e :: e in SOURCE_FILE_EXTENSIONS && c == IndexFile(base, e)
  {
    PlainShape(base, SOURCE_FILE_EXTENSIONS, c);
  }

  lemma IndexIsCopied(iso: Isolation, e: string)
    requires iso.Valid()
    ensures IndexFile(iso.isolatedRoot, e) in iso.copied <==> IndexFile(iso.copyRoot, e) in iso.files
  {
    CopiedExactly(iso, ["index" + e]);
  }

  /** An import of the copy root finds something in the copy exactly if that has an index file and a plain name. */
  lemma RootUnresolved(iso: Isolation)
    requires iso.Valid() && iso.Fresh()
    ensures FirstFile(iso.copied.Keys, Candidates(iso.isolatedRoot)) == None <==>
            Extension(iso.isolatedRoot) != "" || !HasIndex(iso)
  {
    var candidates := Candidates(iso.isolatedRoot);
    if Extension(iso.isolatedRoot) == "" && HasIndex(iso) {
      var e :| e in SOURCE_FILE_EXTENSIONS && IndexFile(iso.copyRoot, e) in iso.files;
      IndexIsCopied(iso, e);
      PlainHasIndex(iso.isolatedRoot, SOURCE_FILE_EXTENSIONS, e);
      assert IndexFile(iso.isolatedRoot, e) in candidates;
    }
    FirstFileMember(iso.copied.Keys, candidates);
    var found := FirstFile(iso.copied.Keys, candidates);
    if found.Some? {
      RootCandidate(iso, found.value);
      InsideCandidate(iso.isolatedRoot, found.value);
      var e :| e in SOURCE_FILE_EXTENSIONS && found.value == IndexFile(iso.isolatedRoot, e);
      IndexIsCopied(iso, e);
    }
  }

  // ---------------------------------------------------------------- the theorems

  /**
   * What an import needs for the copy to keep it: its route never climbs above the copy root and,
   * if it names the copy root itself, its target is an index file and the fresh directory's name
   * has no extension.
   */
  predicate Faithful(iso: Isolation, f: Path, spec: Specifier, g: Path)
    requires Normal(f) && iso.copyRoot < f
  {
    var w := iso.Route(f, spec);
    w.ups == 0 && (w.rest == [] ==> Extension(iso.isolatedRoot) == "" && "index" <= Basename(g))
  }

  lemma {:induction false} SameLookup(files: set<Path>, files': set<Path>, ps: seq<Path>)
    requires forall p | p in ps :: p in files <==> p in files'
    ensures FirstFile(files, ps) == FirstFile(files', ps)
  {
    if ps != [] {
      assert ps[0] in ps && forall p | p in ps[1..] :: p in ps;
      SameLookup(files, files', ps[1..]);
    }
  }

  lemma OutsideCandidate(iso: Isolation, f: Path, spec: Specifier, c: Path)
    requires iso.Valid() && iso.Fresh() && f in iso.files && iso.copyRoot < f && Normal(f)
    requires f in iso.fs.files && spec in iso.fs.files[f] && iso.Route(f, spec).ups > 0
    requires IsBeside(OutsideBase(iso, f, spec), c)
    ensures c in iso.copied <==> c in iso.fs.files
  {
    ClimbingMisses(iso, f, spec, c);
    if c in iso.copied && c !in iso.fs.files {
      CopiedIsInside(iso, c);
    }
  }

  lemma CandidatesAreBeside(base: Path, ps: seq<Path>)
    requires ps == Candidates(base)
    ensures forall c | c in ps :: IsBeside(base, c)
  {
    forall c | c in ps ensures IsBeside(base, c) {
      CandidateShape(base, c);
    }
  }

  /** From the copy, an import that climbs above the copy root sees the original files only. */
  lemma ClimbingSeesOriginals(iso: Isolation, f: Path, spec: Specifier)
    requires iso.Valid() && iso.Fresh()
    requires f in iso.files && iso.copyRoot < f && Normal(f) && Normal(iso.Copy(f))
    requires f in iso.fs.files && spec in iso.fs.files[f] && iso.Route(f, spec).ups > 0
    ensures ImportTarget(iso.After(), iso.Copy(f), spec) ==
            FirstFile(iso.fs.files.Keys, Candidates(OutsideBase(iso, f, spec)))
  {
    var candidates := Candidates(OutsideBase(iso, f, spec));
    BasesOfRoute(iso, f, spec);
    CandidatesAreBeside(OutsideBase(iso, f, spec), candidates);
    forall c | c in candidates ensures c in iso.copied.Keys <==> c in iso.fs.files.Keys {
      OutsideCandidate(iso, f, spec, c);
    }
    SameLookup(iso.copied.Keys, iso.fs.files.Keys, candidates);
  }

  lemma ClimbingLosesTarget(iso: Isolation, f: Path, spec: Specifier, g: Path)
    requires iso.Valid() && iso.Fresh()
    requires f in iso.files && iso.copyRoot < f && Normal(f) && Normal(iso.Copy(f))
    requires f in iso.fs.files && spec in iso.fs.files[f]
    requires iso.copyRoot < g && iso.Route(f, spec).ups > 0
    ensures ImportTarget(iso.After(), iso.Copy(f), spec) != Some(iso.Copy(g))
  {
    ClimbingSeesOriginals(iso, f, spec);
    assert iso.isolatedRoot <= iso.Copy(g) && iso.Copy(g) !in iso.fs.files;
  }

  lemma RootImport(iso: Isolation, f: Path, spec: Specifier)
    requires iso.Valid() && f in iso.files && iso.copyRoot < f && Normal(f) && Normal(iso.Copy(f))
    requires iso.Route(f, spec) == Walk(0, [])
    ensures ImportTarget(iso.fs, f, spec) == FirstFile(iso.fs.files.Keys, Candidates(iso.copyRoot))
    ensures ImportTarget(iso.After(), iso.Copy(f), spec) == FirstFile(iso.copied.Keys, Candidates(iso.isolatedRoot))
  {
    BasesInside(iso, f, spec);
    assert iso.copyRoot + [] == iso.copyRoot && iso.isolatedRoot + [] == iso.isolatedRoot;
  }

  /** An import of a collected file still resolves to (the copy of) its target exactly when it is faithful. */
  lemma ResolutionPreserved(iso: Isolation, f: Path, spec: Specifier, g: Path)
    requires iso.Valid() && iso.Fresh()
    requires f in iso.files && iso.copyRoot < f && Normal(f) && Normal(iso.Copy(f))
    requires f in iso.fs.files && spec in iso.fs.files[f]
    requires ImportTarget(iso.fs, f, spec) == Some(g) && g in iso.files && iso.copyRoot < g
    ensures ImportTarget(iso.After(), iso.Copy(f), spec) == Some(iso.Copy(g)) <==> Faithful(iso, f, spec, g)
  {
    var w := iso.Route(f, spec);
    if w.ups > 0 {
      ClimbingLosesTarget(iso, f, spec, g);
    } else if w.rest != [] {
      InsideResolution(iso, f, spec);
    } else {
      RootImport(iso, f, spec);
      RootResolution(iso, g);
    }
  }

  /**
   * What an import that resolved to nothing needs to stay unresolved: if it climbs above the copy root,
   * there is no file where it then points; if it names the copy root, that has no index file to find.
   */
  predicate StaysUnresolved(iso: Isolation, f: Path, spec: Specifier)
    requires Normal(f) && iso.copyRoot < f
  {
    var w := iso.Route(f, spec);
    if w.ups > 0 then FirstFile(iso.fs.files.Keys, Candidates(OutsideBase(iso, f, spec))) == None
    else w.rest == [] ==> Extension(iso.isolatedRoot) != "" || !HasIndex(iso)
  }

  /** An import that resolved to nothing still does, from the copy, exactly under that condition. */
  lemma UnresolvedPreserved(iso: Isolation, f: Path, spec: Specifier)
    requires iso.Valid() && iso.Fresh()
    requires f in iso.files && iso.copyRoot < f && Normal(f) && Normal(iso.Copy(f))
    requires f in iso.fs.files && spec in iso.fs.files[f]
    requires ImportTarget(iso.fs, f, spec) == None
    ensures ImportTarget(iso.After(), iso.Copy(f), spec) == None <==> StaysUnresolved(iso, f, spec)
  {
    if iso.Route(f, spec).ups > 0 {
      ClimbingSeesOriginals(iso, f, spec);
    } else if iso.Route(f, spec).rest != [] {
      InsideResolution(iso, f, spec);
    } else {
      RootImport(iso, f, spec);
      RootUnresolved(iso);
    }
  }

  /** Every relative import of every collected file keeps its target, or stays unresolved. */
  ghost predicate SelfContained(iso: Isolation)
    requires iso.Valid()
  {
    forall f, i: nat | f in iso.files && f in iso.fs.files && i < |iso.fs.files[f]| && IsRelative(iso.fs.files[f][i]) ::
      iso.copyRoot < f && Normal(f) && KeepsImport(iso, f, iso.fs.files[f][i])
  }

  predicate KeepsImport(iso: Isolation, f: Path, spec: Specifier)
    requires Normal(f) && iso.copyRoot < f
  {
    match ImportTarget(iso.fs, f, spec)
    case Some(g) => Faithful(iso, f, spec, g)
    case None => StaysUnresolved(iso, f, spec)
  }

  /** In a self-contained copy, the copies import exactly the copies of what the originals import. */
  lemma ImportsCopied(iso: Isolation, f: Path, q: Path)
    requires iso.Valid() && iso.Fresh() && SelfContained(iso)
    requires f in iso.files && iso.copyRoot < f && Normal(f) && Normal(iso.Copy(f))
    requires forall g | Imports(iso.fs, f, g) :: g in iso.files && iso.copyRoot < g
    ensures Imports(iso.After(), iso.Copy(f), q) <==>
            iso.isolatedRoot <= q && Imports(iso.fs, f, Rebase(iso.isolatedRoot, iso.copyRoot, q))
  {
    CopyRootIsProper(iso, f);
    var p := if iso.isolatedRoot <= q then Rebase(iso.isolatedRoot, iso.copyRoot, q) else [];
    if Imports(iso.After(), iso.Copy(f), q) {
      var i: nat :| i < |iso.copied[iso.Copy(f)]| && ImportsAt(iso.After(), iso.Copy(f), i, q);
      ImportCopied(iso, f, i);
      var g := ImportTarget(iso.fs, f, iso.fs.files[f][i]).value;
      assert ImportsAt(iso.fs, f, i, g);
      RebaseInverse(iso.copyRoot, iso.isolatedRoot, g);
    }
    if iso.isolatedRoot <= q && Imports(iso.fs, f, p) {
      var i: nat :| i < |iso.fs.files[f]| && ImportsAt(iso.fs, f, i, p);
      ImportCopied(iso, f, i);
      RebaseInverse(iso.isolatedRoot, iso.copyRoot, q);
      assert ImportsAt(iso.After(), iso.Copy(f), i, q);
    }
  }

  /** An import of a collected file finds the copy of what it found, or nothing if it found nothing. */
  predicate IsKept(iso: Isolation, f: Path, spec: Specifier)
    requires Normal(f) && iso.copyRoot <= f && Normal(iso.Copy(f))
  {
    match ImportTarget(iso.fs, f, spec)
    case Some(g) => iso.copyRoot <= g && ImportTarget(iso.After(), iso.Copy(f), spec) == Some(iso.Copy(g))
    case None => ImportTarget(iso.After(), iso.Copy(f), spec) == None
  }

  /** An import is kept by the copy exactly under the conditions above. */
  lemma ImportKeptExactly(iso: Isolation, f: Path, spec: Specifier)
    requires iso.Valid() && iso.Fresh()
    requires f in iso.files && iso.copyRoot < f && Normal(f) && Normal(iso.Copy(f)) && f in iso.fs.files
    requires spec in iso.fs.files[f]
    requires var r := ImportTarget(iso.fs, f, spec); r.Some? ==> r.value in iso.files && iso.copyRoot < r.value
    ensures IsKept(iso, f, spec) <==> KeepsImport(iso, f, spec)
  {
    match ImportTarget(iso.fs, f, spec)
    case Some(g) => ResolutionPreserved(iso, f, spec, g);
    case None => UnresolvedPreserved(iso, f, spec);
  }

  lemma ImportCopied(iso: Isolation, f: Path, i: nat)
    requires iso.Valid() && iso.Fresh() && SelfContained(iso)
    requires f in iso.files && iso.copyRoot < f && Normal(f) && Normal(iso.Copy(f)) && f in iso.fs.files
    requires forall g | Imports(iso.fs, f, g) :: g in iso.files && iso.copyRoot < g
    requires i < |iso.fs.files[f]| && IsRelative(iso.fs.files[f][i])
    ensures var r := ImportTarget(iso.fs, f, iso.fs.files[f][i]);
            && (r.Some? ==> r.value in iso.files && iso.copyRoot < r.value)
            && ImportTarget(iso.After(), iso.Copy(f), iso.fs.files[f][i]) ==
               if r.Some? then Some(iso.Copy(r.value)) else None
  {
    var spec := iso.fs.files[f][i];
    var r := ImportTarget(iso.fs, f, spec);
    if r.Some? {
      assert ImportsAt(iso.fs, f, i, r.value);
      assert Imports(iso.fs, f, r.value);
    }
    assert KeepsImport(iso, f, spec);
    ImportKeptExactly(iso, f, spec);
  }

  function CopyAll(iso: Isolation): set<Path> {
    set f | f in iso.files && iso.copyRoot <= f :: iso.Copy(f)
  }

  lemma CopiedFilesNormal(iso: Isolation)
    requires iso.Valid()
    ensures iso.After().NormalFiles()
  {
  }

  lemma GraphMember(iso: Isolation, f: Path)
    requires iso.Valid() && f in iso.files && ClosedUnderImports(iso.fs, iso.files)
    ensures iso.copyRoot < f && f in iso.fs.files && Normal(f) && Normal(iso.Copy(f))
    ensures forall g | Imports(iso.fs, f, g) :: g in iso.files && iso.copyRoot < g
  {
    CopyRootIsProper(iso, f);
    CopyIsNormal(iso, f);
    forall g | Imports(iso.fs, f, g) ensures g in iso.files && iso.copyRoot < g {
      CopyRootIsProper(iso, g);
    }
  }

  lemma CopyClosed(iso: Isolation)
    requires iso.Valid() && iso.Fresh() && SelfContained(iso) && ClosedUnderImports(iso.fs, iso.files)
    ensures iso.After().NormalFiles() && ClosedUnderImports(iso.After(), CopyAll(iso))
  {
    CopiedFilesNormal(iso);
    forall c, q | c in CopyAll(iso) && c in iso.copied && Imports(iso.After(), c, q) ensures q in CopyAll(iso) {
      var f :| f in iso.files && iso.copyRoot <= f && c == iso.Copy(f);
      GraphMember(iso, f);
      ImportsCopied(iso, f, q);
      var g := Rebase(iso.isolatedRoot, iso.copyRoot, q);
      RebaseInverse(iso.isolatedRoot, iso.copyRoot, q);
      assert Imports(iso.fs, f, g) && iso.Copy(g) == q;
    }
  }

  /** A closed set of the copied tree, seen from the original one, is closed there. */
  lemma PullbackClosed(iso: Isolation, t: set<Path>)
    requires iso.Valid() && iso.Fresh() && SelfContained(iso) && ClosedUnderImports(iso.fs, iso.files)
    requires iso.After().NormalFiles() && ClosedUnderImports(iso.After(), t)
    ensures ClosedUnderImports(iso.fs, set f | f in iso.files && iso.copyRoot <= f && iso.Copy(f) in t)
  {
    var s := set f | f in iso.files && iso.copyRoot <= f && iso.Copy(f) in t;
    forall f, g | f in s && f in iso.fs.files && Imports(iso.fs, f, g) ensures g in s {
      GraphMember(iso, f);
      CopyRootIsProper(iso, f);
      RebaseInverse(iso.copyRoot, iso.isolatedRoot, g);
      ImportsCopied(iso, f, iso.Copy(g));
      assert Imports(iso.After(), iso.Copy(f), iso.Copy(g));
    }
  }

  /** The import graph of the copied module is the copy of the module's import graph. */
  lemma GraphPreserved(iso: Isolation, entry: Path)
    requires iso.Valid() && iso.Fresh() && SelfContained(iso)
    requires IsImportGraph(iso.fs, entry, iso.files) && iso.copyRoot <= entry
    ensures iso.After().NormalFiles() && IsImportGraph(iso.After(), iso.Copy(entry), CopyAll(iso))
  {
    CopyClosed(iso);
    forall c | c in CopyAll(iso) ensures c in iso.copied {
      var f :| f in iso.files && iso.copyRoot <= f && c == iso.Copy(f);
      CopyRootIsProper(iso, f);
    }
    forall t: set<Path> | iso.Copy(entry) in t && ClosedUnderImports(iso.After(), t) ensures CopyAll(iso) <= t {
      PullbackClosed(iso, t);
      var s := set f | f in iso.files && iso.copyRoot <= f && iso.Copy(f) in t;
      assert entry in s;
      assert iso.files <= s;
    }
  }

  /** The result of the copy operation is such an isolation. */
  lemma CopyIsIsolation(fs: FileSystem, modulePath: Path, repoRoot: Path, random: string, m: IsolatedModule)
    requires fs.WellFormed() && Normal(repoRoot) && random != "" && '.' !in random
    requires FreshDirectory(fs, modulePath, repoRoot, random)
    requires modulePath in fs.files && IsPackageRoot(fs, modulePath, m.packageRoot) && m.copyRoot <= m.packageRoot
    requires m.isolatedRoot == IsolatedRoot(repoRoot, m.packageRoot, random)
    requires IsCopyOf(fs, m.graph, m.copyRoot, m.isolatedRoot, m.files)
    ensures Isolation(fs, m.graph, m.copyRoot, m.isolatedRoot, m.files).Valid()
  {
    IsolatedRootNormal(repoRoot, m.packageRoot, random);
    FileAncestorsAreDirs(fs, modulePath, m.copyRoot);
  }

  lemma {:induction false} LastDotExtended(name: string, suffix: string)
    requires '.' !in suffix
    ensures LastDot(name + suffix) == LastDot(name)
  {
    if suffix == "" {
      assert name + suffix == name;
    } else {
      var n := |suffix| - 1;
      assert suffix[n] in suffix;
      assert (name + suffix)[..|name| + n] == name + suffix[..n];
      LastDotExtended(name, suffix[..n]);
    }
  }

  /** The fresh directory's name has an extension exactly when the package directory's name has one. */
  lemma IsolatedRootExtension(repoRoot: Path, packageRoot: Path, random: string)
    requires '.' !in random
    ensures Extension(IsolatedRoot(repoRoot, packageRoot, random)) == "" <==> Extension(packageRoot) == ""
  {
    var suffix := "-" + random;
    assert '.' !in suffix;
    LastDotExtended(Basename(packageRoot), suffix);
    assert Basename(packageRoot) + "-" + random == Basename(packageRoot) + suffix;
  }

  const SIBLING: Specifier := ["..", "p", "g.ts"]

  lemma SiblingResolves()
    ensures Resolve(["r", "p"], SIBLING) == ["r", "p", "g.ts"]
    ensures WalkFrom(Walk(0, []), SIBLING) == Walk(1, ["p", "g.ts"])
  {
  }

  // The package /r/p: its entry f.ts imports g.ts through "../p/g.ts". Repository root /r, random characters "x".
  const PACKAGE: Path := ["r", "p"]
  const PACKAGE_FILE: Path := PACKAGE + ["package.json"]
  const ENTRY: Path := PACKAGE + ["f.ts"]
  const TARGET: Path := PACKAGE + ["g.ts"]

  function SiblingTree(): FileSystem {
    FileSystem(map[ENTRY := [SIBLING], TARGET := [], PACKAGE_FILE := []], {[], ["r"], PACKAGE})
  }

  function SiblingIsolation(): Isolation {
    var root := IsolatedRoot(["r"], PACKAGE, "x");
    Isolation(SiblingTree(), {ENTRY, TARGET}, PACKAGE, root,
              SiblingTree().files[root + ["f.ts"] := [SIBLING]][root + ["g.ts"] := []])
  }

  lemma SiblingTreeIsWellFormed()
    ensures SiblingTree().WellFormed()
  {
    assert Dirname(ENTRY) == PACKAGE && Dirname(TARGET) == PACKAGE && Dirname(PACKAGE_FILE) == PACKAGE;
    assert Dirname(PACKAGE) == ["r"] && Dirname(["r"]) == [];
    assert |ENTRY| == 3 && |TARGET| == 3 && |PACKAGE_FILE| == 3;
  }

  lemma SiblingCopy()
    ensures var iso := SiblingIsolation();
            IsCopyOf(iso.fs, iso.files, iso.copyRoot, iso.isolatedRoot, iso.copied)
  {
    var root := IsolatedRoot(["r"], PACKAGE, "x");
    assert root[1] != PACKAGE[1];
    assert ENTRY[1] == PACKAGE[1] && TARGET[1] == PACKAGE[1] && PACKAGE_FILE[1] == PACKAGE[1];
    assert (root + ["f.ts"])[1] == root[1] && (root + ["g.ts"])[1] == root[1];
    assert (root + ["f.ts"])[3] != (root + ["g.ts"])[3];
    assert Rebase(PACKAGE, root, ENTRY) == root + ["f.ts"] && Rebase(PACKAGE, root, TARGET) == root + ["g.ts"];
    RebaseInverse(PACKAGE, root, ENTRY);
    RebaseInverse(PACKAGE, root, TARGET);
  }

  lemma SiblingFiles(p: Path)
    requires p in SiblingTree().files
    ensures |p| == 3 && p[1] == "p"
  {
  }

  lemma SiblingRoot()
    ensures var root := IsolatedRoot(["r"], PACKAGE, "x");
            |root| == 3 && root[1] != "p" && Basename(root) !in SIBLING
  {
  }

  lemma SiblingElsewhere(p: Path)
    requires p in SiblingTree().files
    ensures var root := IsolatedRoot(["r"], PACKAGE, "x"); !(root <= p) && p !in Candidates(root)
  {
    var root := IsolatedRoot(["r"], PACKAGE, "x");
    SiblingFiles(p);
    SiblingRoot();
    forall c | c in Candidates(root) ensures |c| >= 3 && c[1] == root[1] {
      CandidateShape(root, c);
      assert root <= c || (Dirname(c)[1] == c[1] && Dirname(root)[1] == root[1]);
    }
  }

  lemma SiblingIsolationIsValid()
    ensures SiblingIsolation().Valid()
  {
    SiblingTreeIsWellFormed();
    SiblingCopy();
    IsolatedRootNormal(["r"], PACKAGE, "x");
    forall p | p in SiblingTree().files ensures !(SiblingIsolation().isolatedRoot <= p) {
      SiblingElsewhere(p);
    }
  }

  lemma SiblingIsolationIsFresh()
    ensures SiblingIsolation().Fresh()
  {
    SiblingRoot();
    forall p | p in SiblingTree().files ensures p !in Candidates(SiblingIsolation().isolatedRoot) {
      SiblingElsewhere(p);
    }
    forall f, spec | f in SiblingTree().files && spec in SiblingTree().files[f] ensures spec == SIBLING {
      SiblingImports(f, spec);
    }
  }

  lemma SiblingImports(f: Path, spec: Specifier)
    requires f in SiblingTree().files && spec in SiblingTree().files[f]
    ensures spec == SIBLING
  {
  }

  /**
   * An import the copy does not keep: from /r/p/f.ts, "../p/g.ts" finds /r/p/g.ts, but it climbs
   * above the copy root /r/p, and from the copy of f.ts it misses the copy of g.ts.
   */
  lemma SiblingRouteIsLost()
    ensures var iso := SiblingIsolation();
            && iso.Valid() && iso.Fresh() && iso.copyRoot <= ENTRY && iso.copyRoot <= TARGET
            && Normal(ENTRY) && Normal(iso.Copy(ENTRY))
            && ImportTarget(iso.fs, ENTRY, SIBLING) == Some(TARGET)
            && ImportTarget(iso.After(), iso.Copy(ENTRY), SIBLING) != Some(iso.Copy(TARGET))
  {
    SiblingIsolationIsValid();
    SiblingIsolationIsFresh();
    SiblingPlaces();
    SiblingFound();
    SiblingRoute();
    ClimbingLosesTarget(SiblingIsolation(), ENTRY, SIBLING, TARGET);
  }

  lemma SiblingPlaces()
    ensures var iso := SiblingIsolation();
            && iso.copyRoot < ENTRY && iso.copyRoot < TARGET && Normal(ENTRY) && Normal(iso.Copy(ENTRY))
            && ENTRY in iso.files && ENTRY in iso.fs.files && SIBLING in iso.fs.files[ENTRY]
  {
    var iso := SiblingIsolation();
    SiblingIsolationIsValid();
    CopyRootIsProper(iso, ENTRY);
    CopyRootIsProper(iso, TARGET);
    CopyIsNormal(iso, ENTRY);
    assert ENTRY[2] != TARGET[2] && ENTRY[2] != PACKAGE_FILE[2];
  }

  lemma SiblingFound()
    requires Normal(ENTRY)
    ensures ImportTarget(SiblingTree(), ENTRY, SIBLING) == Some(TARGET)
  {
    SiblingResolves();
    assert Resolve(Dirname(ENTRY), SIBLING) == TARGET;
    FirstIsFile(SiblingTree().files.Keys, Candidates(TARGET), TARGET);
  }

  lemma FirstIsFile(files: set<Path>, candidates: seq<Path>, p: Path)
    requires candidates != [] && candidates[0] == p && p in files
    ensures FirstFile(files, candidates) == Some(p)
  {
  }

  lemma SiblingRoute()
    requires Normal(ENTRY) && PACKAGE < ENTRY
    ensures SiblingIsolation().Route(ENTRY, SIBLING) == Walk(1, ["p", "g.ts"])
  {
    SiblingResolves();
    assert Dirname(ENTRY[|PACKAGE|..]) == [];
  }
}
