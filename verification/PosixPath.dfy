/** Absolute POSIX paths and the parts of node's `path` module that the import copier uses. */
module PosixPath {

  /** The segments of an absolute path, outermost first; the filesystem root is []. */
  type Path = seq<string>

  predicate IsName(s: string) {
    s != "" && s != "." && s != ".."
  }

  predicate Normal(p: Path) {
    forall s | s in p :: IsName(s)
  }

  function Dirname(p: Path): Path {
    if p == [] then [] else p[..|p| - 1]
  }

  /** The directory `n` levels above `p`, stopping at the root. */
  function Above(p: Path, n: nat): (r: Path)
    ensures r <= p
    ensures n == 0 ==> r == p
  {
    if n <= |p| then p[..|p| - n] else []
  }

  /** `path.resolve(base, raw)` and `path.join(base, raw)`, where `raw` is split at its slashes. */
  function Resolve(base: Path, raw: seq<string>): (r: Path)
    requires Normal(base)
    ensures Normal(r)
    decreases |raw|
  {
    if raw == [] then base
    else if raw[0] == "" || raw[0] == "." then Resolve(base, raw[1..])
    else if raw[0] == ".." then Resolve(Dirname(base), raw[1..])
    else Resolve(base + [raw[0]], raw[1..])
  }

  /** A relative path in lexical normal form: go `ups` levels up, then down `rest`. */
  datatype Walk = Walk(ups: nat, rest: Path)

  /** Follows `raw` from the directory `rest` inside a tree, counting the levels climbed above the tree's root. */
  function WalkFrom(w: Walk, raw: seq<string>): (r: Walk)
    requires Normal(w.rest)
    ensures Normal(r.rest)
    ensures r.ups >= w.ups
    decreases |raw|
  {
    if raw == [] then w
    else if raw[0] == "" || raw[0] == "." then WalkFrom(w, raw[1..])
    else if raw[0] == ".." then
      WalkFrom(if w.rest == [] then Walk(w.ups + 1, []) else Walk(w.ups, Dirname(w.rest)), raw[1..])
    else WalkFrom(Walk(w.ups, w.rest + [raw[0]]), raw[1..])
  }

  /** Resolution is the walk replayed at the tree's actual location. */
  lemma {:induction false} ResolveIsWalk(root: Path, w: Walk, raw: seq<string>)
    requires Normal(root) && Normal(w.rest)
    ensures Normal(Above(root, w.ups) + w.rest)
    ensures var r := WalkFrom(w, raw);
            Resolve(Above(root, w.ups) + w.rest, raw) == Above(root, r.ups) + r.rest
    decreases |raw|
  {
    var here := Above(root, w.ups) + w.rest;
    assert Normal(here) by {
      forall s | s in here ensures IsName(s) {
        assert s in root || s in w.rest;
      }
    }
    if raw == [] {
    } else if raw[0] == "" || raw[0] == "." {
      ResolveIsWalk(root, w, raw[1..]);
    } else if raw[0] == ".." {
      if w.rest == [] {
        assert Dirname(here) == Above(root, w.ups + 1) + [];
        ResolveIsWalk(root, Walk(w.ups + 1, []), raw[1..]);
      } else {
        assert Dirname(here) == Above(root, w.ups) + Dirname(w.rest);
        ResolveIsWalk(root, Walk(w.ups, Dirname(w.rest)), raw[1..]);
      }
    } else {
      assert here + [raw[0]] == Above(root, w.ups) + (w.rest + [raw[0]]);
      ResolveIsWalk(root, Walk(w.ups, w.rest + [raw[0]]), raw[1..]);
    }
  }

  /** Every segment a walk descends into was in the starting directory or in the raw path. */
  lemma {:induction false} WalkNames(w: Walk, raw: seq<string>, s: string)
    requires Normal(w.rest) && s in WalkFrom(w, raw).rest
    ensures s in w.rest || s in raw
    decreases |raw|
  {
    if raw == [] {
    } else if raw[0] == "" || raw[0] == "." {
      WalkNames(w, raw[1..], s);
    } else if raw[0] == ".." {
      WalkNames(if w.rest == [] then Walk(w.ups + 1, []) else Walk(w.ups, Dirname(w.rest)), raw[1..], s);
    } else {
      WalkNames(Walk(w.ups, w.rest + [raw[0]]), raw[1..], s);
    }
  }

  /** Once a walk has climbed above the root, what it descends into comes from the raw path alone. */
  lemma {:induction false} WalkNamesAbove(w: Walk, raw: seq<string>, s: string)
    requires Normal(w.rest) && WalkFrom(w, raw).ups > w.ups && s in WalkFrom(w, raw).rest
    ensures s in raw
    decreases |raw|
  {
    if raw[0] == "" || raw[0] == "." {
      WalkNamesAbove(w, raw[1..], s);
    } else if raw[0] == ".." {
      if w.rest == [] {
        WalkNames(Walk(w.ups + 1, []), raw[1..], s);
      } else {
        WalkNamesAbove(Walk(w.ups, Dirname(w.rest)), raw[1..], s);
      }
    } else {
      WalkNamesAbove(Walk(w.ups, w.rest + [raw[0]]), raw[1..], s);
    }
  }

  function CommonLength(a: Path, b: Path): (n: nat)
    ensures n <= |a| && n <= |b| && a[..n] == b[..n]
    ensures n < |a| && n < |b| ==> a[n] != b[n]
  {
    if a == [] || b == [] || a[0] != b[0] then 0
    else
      var n := CommonLength(a[1..], b[1..]);
      assert a[..n + 1] == [a[0]] + a[1..][..n] && b[..n + 1] == [b[0]] + b[1..][..n];
      n + 1
  }

  function Ups(n: nat): (r: seq<string>)
    ensures |r| == n && forall s | s in r :: s == ".."
  {
    seq(n, _ => "..")
  }

  /** `path.relative(from, to)`, split at its slashes. */
  function Relative(from: Path, to: Path): seq<string> {
    var n := CommonLength(from, to);
    Ups(|from| - n) + to[n..]
  }

  /** The text of a relative path starts with "../". */
  predicate StartsUp(relative: seq<string>) {
    |relative| >= 2 && relative[0] == ".."
  }

  lemma CommonLengthPrefix(a: Path, b: Path)
    requires a <= b
    ensures CommonLength(a, b) == |a|
  {
  }

  /** When `relative` starts with "../": `to` is neither inside `from` nor its parent directory. */
  lemma StartsUpMeaning(from: Path, to: Path)
    requires Normal(from) && Normal(to)
    ensures StartsUp(Relative(from, to)) <==> !(from <= to) && !(from != [] && to == Dirname(from))
  {
    var n := CommonLength(from, to);
    if from <= to {
      CommonLengthPrefix(from, to);
      if to[n..] != [] {
        assert Relative(from, to)[0] == to[n] && to[n] in to;
      }
    } else {
      assert from == from[..|from|];
      assert n < |from|;
      if to == Dirname(from) {
        CommonLengthPrefix(to, from);
        assert CommonLength(to, from) == |to| <= n;
      } else {
        assert to == to[..|to|];
        assert |Relative(from, to)| >= 2;
      }
    }
  }

  /** `path.join` of a relative path without "..": plain descent. */
  lemma {:induction false} ResolveDescends(base: Path, raw: seq<string>)
    requires Normal(base) && Normal(raw)
    ensures Resolve(base, raw) == base + raw
    decreases |raw|
  {
    if raw == [] {
      assert base + raw == base;
    } else {
      assert raw[0] in raw;
      assert Normal(base + [raw[0]]);
      ResolveDescends(base + [raw[0]], raw[1..]);
      assert base + [raw[0]] + raw[1..] == base + raw;
    }
  }

  /** Position of the last dot of a file name, or -1. */
  function LastDot(name: string): (i: int)
    ensures -1 <= i < |name|
    ensures i >= 0 ==> name[i] == '.'
    ensures forall j | i < j < |name| :: name[j] != '.'
  {
    if name == "" then -1
    else if name[|name| - 1] == '.' then |name| - 1
    else LastDot(name[..|name| - 1])
  }

  /** `path.extname` of a path whose last segment is `name`: a leading dot starts no extension. */
  function NameExtension(name: string): string {
    if LastDot(name) > 0 then name[LastDot(name)..] else ""
  }

  function Extension(p: Path): string {
    if p == [] then "" else NameExtension(p[|p| - 1])
  }

  /** The path whose text is the text of `p` followed by `suffix` (no slash in `suffix`). */
  function AppendText(p: Path, suffix: string): (r: Path)
    ensures p != [] ==> |r| == |p|
  {
    if p == [] then [suffix] else p[..|p| - 1] + [p[|p| - 1] + suffix]
  }

  /** The path whose text is the text of `p` without its extension. */
  function Stem(p: Path): (r: Path)
    ensures |r| == |p|
  {
    if p == [] then [] else
      var name := p[|p| - 1];
      p[..|p| - 1] + [name[..|name| - |NameExtension(name)|]]
  }

  // ---------------------------------------------------------------- names and paths, told without these functions

  lemma LastDotIs(name: string, i: nat)
    requires i < |name| && name[i] == '.' && forall j | i < j < |name| :: name[j] != '.'
    ensures LastDot(name) == i
  {
  }

  /** The extension is the last dot of a name and what follows it, unless nothing stands before it. */
  lemma ExtensionOf(stem: string, suffix: string)
    requires '.' !in suffix
    ensures NameExtension(stem + "." + suffix) == if stem == "" then "" else "." + suffix
  {
    var name := stem + "." + suffix;
    assert name[|stem|] == '.' && forall j | |stem| < j < |name| :: name[j] == suffix[j - |stem| - 1];
    forall j | |stem| < j < |name| ensures name[j] != '.' {
      assert suffix[j - |stem| - 1] in suffix;
    }
    LastDotIs(name, |stem|);
    assert name[|stem|..] == "." + suffix;
  }

  lemma NoExtension(name: string)
    requires '.' !in name
    ensures NameExtension(name) == ""
  {
    assert forall i | 0 <= i < |name| :: name[i] in name;
  }

  lemma StemOf(dir: Path, stem: string, suffix: string)
    requires stem != "" && '.' !in suffix
    ensures Extension(dir + [stem + "." + suffix]) == "." + suffix
    ensures Stem(dir + [stem + "." + suffix]) == dir + [stem]
  {
    ExtensionOf(stem, suffix);
    var name := stem + "." + suffix;
    assert name[..|name| - |NameExtension(name)|] == stem;
    assert (dir + [name])[..|dir|] == dir;
  }

  lemma Appended(dir: Path, name: string, suffix: string)
    ensures AppendText(dir + [name], suffix) == dir + [name + suffix]
  {
    assert (dir + [name])[..|dir|] == dir;
  }

  lemma UpsFirst(n: nat, raw: seq<string>)
    requires n > 0
    ensures Ups(n) + raw == [".."] + (Ups(n - 1) + raw)
  {
  }

  lemma {:induction false} ResolveUps(base: Path, n: nat, raw: seq<string>)
    requires Normal(base) && n <= |base|
    ensures Normal(base[..|base| - n]) && Resolve(base, Ups(n) + raw) == Resolve(base[..|base| - n], raw)
  {
    if n == 0 {
      assert base[..|base|] == base && Ups(0) + raw == raw;
    } else {
      UpsFirst(n, raw);
      ResolveOneUp(base, Ups(n - 1) + raw);
      ResolveUps(Dirname(base), n - 1, raw);
      assert Dirname(base)[..|Dirname(base)| - (n - 1)] == base[..|base| - n];
    }
  }

  lemma ResolveOneUp(base: Path, raw: seq<string>)
    requires Normal(base)
    ensures Resolve(base, [".."] + raw) == Resolve(Dirname(base), raw)
  {
    assert ([".."] + raw)[1..] == raw;
  }

  lemma NormalParts(p: Path, n: nat)
    requires Normal(p) && n <= |p|
    ensures Normal(p[..n]) && Normal(p[n..]) && p[..n] + p[n..] == p
  {
  }

  lemma UpTo(from: Path, n: nat, raw: seq<string>)
    requires Normal(from) && n <= |from|
    ensures Resolve(from, Ups(|from| - n) + raw) == Resolve(from[..n], raw)
  {
    ResolveUps(from, |from| - n, raw);
  }

  lemma UpThenDown(from: Path, to: Path, n: nat)
    requires Normal(from) && Normal(to) && n <= |from| && n <= |to| && from[..n] == to[..n]
    ensures Resolve(from, Ups(|from| - n) + to[n..]) == to
  {
    UpTo(from, n, to[n..]);
    NormalParts(to, n);
    ResolveDescends(to[..n], to[n..]);
  }

  /** Following the relative path from one place to another leads there. */
  lemma RelativeLeadsThere(from: Path, to: Path)
    requires Normal(from) && Normal(to)
    ensures Resolve(from, Relative(from, to)) == to
  {
    UpThenDown(from, to, CommonLength(from, to));
  }

  /** No step of it is wasted: it climbs exactly to the deepest common directory. */
  lemma RelativeClimbs(common: Path, down: Path, goal: Path)
    requires down == [] || goal == [] || down[0] != goal[0]
    ensures Relative(common + down, common + goal) == Ups(|down|) + goal
    ensures |Ups(|down|)| == |down| && forall s | s in Ups(|down|) :: s == ".."
  {
    CommonLengthIs(common, down, goal);
    assert (common + goal)[|common|..] == goal;
  }

  lemma CommonLengthIs(common: Path, down: Path, goal: Path)
    requires down == [] || goal == [] || down[0] != goal[0]
    ensures CommonLength(common + down, common + goal) == |common|
  {
    CommonLengthAt(common + down, common + goal, |common|);
  }

  lemma CommonLengthAt(a: Path, b: Path, n: nat)
    requires n <= |a| && n <= |b| && forall i | 0 <= i < n :: a[i] == b[i]
    requires n == |a| || n == |b| || a[n] != b[n]
    ensures CommonLength(a, b) == n
  {
  }

  /** Empty and dot segments stay, a double dot climbs and stops at the root, and any other name descends. */
  lemma ResolveSteps(base: Path, name: string)
    requires Normal(base)
    ensures Resolve(base, []) == base && Resolve(base, [""]) == base && Resolve(base, ["."]) == base
    ensures Resolve(base, [".."]) == if base == [] then [] else base[..|base| - 1]
    ensures name != "" && name != "." && name != ".." ==> Resolve(base, [name]) == base + [name]
  {
    assert [""][1..] == [] && ["."][1..] == [] && [".."][1..] == [] && [name][1..] == [];
  }

  /** And steps are taken one after the other. */
  lemma {:induction false} ResolveConcat(base: Path, raw: seq<string>, more: seq<string>)
    requires Normal(base)
    ensures Resolve(base, raw + more) == Resolve(Resolve(base, raw), more)
    decreases |raw|
  {
    if raw == [] {
      assert raw + more == more;
    } else {
      assert (raw + more)[0] == raw[0] && (raw + more)[1..] == raw[1..] + more;
      if raw[0] == "" || raw[0] == "." {
        ResolveConcat(base, raw[1..], more);
      } else if raw[0] == ".." {
        ResolveConcat(Dirname(base), raw[1..], more);
      } else {
        ResolveConcat(base + [raw[0]], raw[1..], more);
      }
    }
  }

  lemma AppendedAtRoot(suffix: string)
    ensures AppendText([], suffix) == [suffix] && Extension([]) == ""
  {
  }
}
