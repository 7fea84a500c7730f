/**
 * The fast path of `fts_build`: a physical walk with FTS_NOSTAT leaves out `stat` calls, by
 * the directory entries' types and by counting the parent's links.  It meets the same
 * directories as the walk that stats everything exactly when the link counts leave room
 * for them.
 */
module FtsFast {
  import opened Common
  import opened FtsSpec

  /** The same walk with a `stat` for every entry. */
  function Full(env: Env): Env {
    env.(nostat := false)
  }

  /** Everything that is not a directory looks the same. */
  function Blur(e: Entry): Entry {
    if IsDirectory(e.info) || e.info.DP? || e.info.DNR? then e
    else Entry(e.path, e.name, NSOK, NO_ID, 0, 0)
  }

  function BlurAll(es: seq<Entry>): (r: seq<Entry>)
    ensures |r| == |es|
    ensures forall i | 0 <= i < |es| :: r[i] == Blur(es[i])
  {
    seq(|es|, i requires 0 <= i < |es| => Blur(es[i]))
  }

  predicate IsDir(env: Env, base: string, d: Dirent) {
    IsDirectory(Statted(env, base + d.name, d.name, [], false).info)
  }

  /** How many of the visible entries are directories. */
  function Dirs(env: Env, base: string, ds: seq<Dirent>): nat {
    if ds == [] then 0
    else (if !Hidden(env, ds[0]) && IsDir(env, base, ds[0]) then 1 else 0) + Dirs(env, base, ds[1..])
  }

  /** An entry whose type says "not a directory" is none. */
  ghost predicate TypesRight(env: Env, base: string, ds: seq<Dirent>) {
    forall i | 0 <= i < |ds| :: ds[i].dtype.DtOther? ==> !IsDir(env, base, ds[i])
  }

  /** The link count of a directory with these entries does not run out before its subdirectories do. */
  predicate LinksSuffice(env: Env, base: string, nlinks: int, ds: seq<Dirent>) {
    nlinks < 0 || Dirs(env, base, ds) <= nlinks
  }

  lemma {:induction false} IsDirAnyAncestors(env: Env, base: string, anc: seq<Id>, d: Dirent)
    ensures IsDirectory(Statted(env, base + d.name, d.name, anc, false).info) <==> IsDir(env, base, d)
    ensures IsDir(Full(env), base, d) <==> IsDir(env, base, d)
  {
  }

  lemma {:induction false} BlurCons(a: Entry, x: seq<Entry>, b: Entry, y: seq<Entry>)
    ensures BlurAll([a] + x) == BlurAll([b] + y) <==> Blur(a) == Blur(b) && BlurAll(x) == BlurAll(y)
  {
    assert BlurAll([a] + x) == [Blur(a)] + BlurAll(x);
    assert BlurAll([b] + y) == [Blur(b)] + BlurAll(y);
    assert ([Blur(a)] + BlurAll(x))[1..] == BlurAll(x);
    assert ([Blur(b)] + BlurAll(y))[1..] == BlurAll(y);
  }

  /** One entry: the fast path takes a directory for something else only when no links are left. */
  lemma {:induction false} FastOne(env: Env, base: string, anc: seq<Id>, nlinks: int, d: Dirent)
    requires Cheating(env) && (d.dtype.DtOther? ==> !IsDir(env, base, d))
    ensures var e := EntryOf(env, base, anc, nlinks, d);
            && (Blur(e) == Blur(EntryOf(Full(env), base, anc, -1, d)) <==> !(nlinks == 0 && IsDir(env, base, d)))
            && LinksAfter(env, nlinks, d.dtype, e.info) == (if nlinks > 0 && IsDir(env, base, d) then nlinks - 1 else nlinks)
  {
    IsDirAnyAncestors(env, base, anc, d);
    assert EntryOf(Full(env), base, anc, -1, d) == Statted(env, base + d.name, d.name, anc, false);
  }

  /** For one directory: the fast path finds the same directories, in the same places, as
      the full one if and only if its link count suffices. */
  lemma {:induction false} FastScanIff(env: Env, base: string, anc: seq<Id>, nlinks: int, ds: seq<Dirent>)
    requires Cheating(env) && TypesRight(env, base, ds)
    ensures BlurAll(Scan(env, base, anc, nlinks, ds)) == BlurAll(Scan(Full(env), base, anc, -1, ds))
       <==> LinksSuffice(env, base, nlinks, ds)
    decreases |ds|
  {
    hide EntryOf, Statted, Blur, BlurAll, SkipsStat, IsDir;
    if ds == [] {
      assert Scan(env, base, anc, nlinks, ds) == Scan(Full(env), base, anc, -1, ds);
    } else {
      var d, rest := ds[0], ds[1..];
      if Hidden(env, d) {
        FastScanIff(env, base, anc, nlinks, rest);
      } else {
        FastOne(env, base, anc, nlinks, d);
        var e := EntryOf(env, base, anc, nlinks, d);
        var left := LinksAfter(env, nlinks, d.dtype, e.info);
        FastScanIff(env, base, anc, left, rest);
        var f := EntryOf(Full(env), base, anc, -1, d);
        assert LinksAfter(Full(env), -1, d.dtype, f.info) == -1;
        BlurCons(e, Scan(env, base, anc, left, rest), f, Scan(Full(env), base, anc, -1, rest));
      }
    }
  }

  // ----- whole walks -----

  /** Link count and types of the directory at `path`, as a `stat` of it reports them. */
  ghost predicate HonestAt(env: Env, path: string, st: Stat) {
    st.Found? && st.mode.ModeDir? && env.list(path).Some? ==>
      && TypesRight(env, Base(path), env.list(path).value)
      && LinksSuffice(env, Base(path), st.nlink - (if env.seedot then 0 else 2), env.list(path).value)
  }

  ghost predicate Honest(env: Env) {
    forall path: string :: HonestAt(env, path, env.stat(path)) && HonestAt(env, path, env.lstat(path))
  }

  /** The comparator's verdicts do not depend on what a `stat` of a non-directory says. */
  ghost predicate SortsBlurred(env: Env, es: seq<Entry>, fs: seq<Entry>) {
    BlurAll(es) == BlurAll(fs) ==> env.qsort(es) == env.qsort(fs)
  }

  ghost predicate BlindSort(env: Env) {
    forall es, fs :: SortsBlurred(env, es, fs)
  }

  /** A directory's link count is that of a `stat` of its path. */
  ghost predicate Counted(env: Env, e: Entry) {
    e.info.D? ==>
      || (env.stat(e.path).Found? && env.stat(e.path).mode.ModeDir? && env.stat(e.path).nlink == e.nlink)
      || (env.lstat(e.path).Found? && env.lstat(e.path).mode.ModeDir? && env.lstat(e.path).nlink == e.nlink)
  }

  ghost predicate AllCounted(env: Env, es: seq<Entry>) {
    forall i | 0 <= i < |es| :: Counted(env, es[i])
  }

  lemma {:induction false} ScanCounted(env: Env, base: string, anc: seq<Id>, nlinks: int, ds: seq<Dirent>)
    ensures AllCounted(env, Scan(env, base, anc, nlinks, ds))
    decreases |ds|
  {
    if ds != [] {
      if Hidden(env, ds[0]) {
        ScanCounted(env, base, anc, nlinks, ds[1..]);
      } else {
        var e := EntryOf(env, base, anc, nlinks, ds[0]);
        ScanCounted(env, base, anc, LinksAfter(env, nlinks, ds[0].dtype, e.info), ds[1..]);
      }
    }
  }

  function BlurVisits(vs: seq<Visit>): (r: seq<Visit>)
    ensures |r| == |vs|
    ensures forall i | 0 <= i < |vs| :: r[i] == vs[i].(e := Blur(vs[i].e))
  {
    seq(|vs|, i requires 0 <= i < |vs| => vs[i].(e := Blur(vs[i].e)))
  }

  lemma {:induction false} BlurConcat(a: seq<Visit>, b: seq<Visit>)
    ensures BlurVisits(a + b) == BlurVisits(a) + BlurVisits(b)
  {
  }

  /** The walk without the shortcut has the same file system and sorting. */
  lemma {:induction false} FullOk(env: Env)
    requires EnvOk(env)
    ensures EnvOk(Full(env))
  {
    forall path: string ensures IdsAt(Full(env), path) && NamesAt(Full(env), path) {
      assert IdsAt(env, path) && NamesAt(env, path);
    }
    forall es: seq<Entry> ensures QsortAt(Full(env), es) {
      assert QsortAt(env, es);
    }
  }

  lemma {:induction false} ArrangeBlurred(env: Env, es: seq<Entry>, fs: seq<Entry>)
    requires EnvOk(env) && EnvOk(Full(env)) && BlindSort(env) && BlurAll(es) == BlurAll(fs)
    ensures BlurAll(Arrange(env, es)) == BlurAll(Arrange(Full(env), fs))
    ensures AllCounted(env, es) ==> AllCounted(env, Arrange(env, es))
  {
    assert SortsBlurred(env, es, fs);
    assert |es| == |fs|;
    if env.sorted && |es| > 1 {
      assert QsortAt(env, es) && QsortAt(Full(env), fs);
      var perm := env.qsort(es);
      forall i | 0 <= i < |perm| ensures Blur(es[perm[i]]) == Blur(fs[perm[i]]) {
        assert BlurAll(es)[perm[i]] == BlurAll(fs)[perm[i]];
      }
    }
  }

  /** The fast walk reads in each directory what the full one reads, up to the blur. */
  lemma {:induction false} ChildrenAgree(env: Env, e: Entry, anc: seq<Id>)
    requires EnvOk(env) && EnvOk(Full(env)) && Cheating(env) && Honest(env) && BlindSort(env)
    requires e.info.D? && Counted(env, e) && env.list(e.path).Some?
    ensures var ds := env.list(e.path).value;
            && BlurAll(Children(env, e, anc, ds)) == BlurAll(Children(Full(env), e, anc, ds))
            && AllCounted(env, Children(env, e, anc, ds))
  {
    var ds := env.list(e.path).value;
    assert HonestAt(env, e.path, env.stat(e.path)) && HonestAt(env, e.path, env.lstat(e.path));
    FastScanIff(env, Base(e.path), anc, LinksOf(env, e), ds);
    ScanCounted(env, Base(e.path), anc, LinksOf(env, e), ds);
    ArrangeBlurred(env, Scan(env, Base(e.path), anc, LinksOf(env, e), ds), Scan(Full(env), Base(e.path), anc, -1, ds));
  }

  ghost predicate Fast(env: Env) {
    EnvOk(env) && Cheating(env) && Honest(env) && BlindSort(env)
  }

  lemma {:induction false} EntryAgrees(env: Env, e: Entry, f: Entry, anc: seq<Id>, level: nat, dev: int)
    requires Fast(env) && EnvOk(Full(env)) && Blur(e) == Blur(f) && Counted(env, e)
    requires PathOk(e.path) && Fresh(env, e, anc) && Fresh(Full(env), f, anc)
    requires !e.info.DP? && !e.info.DNR? && !f.info.DP? && !f.info.DNR?
    ensures f.path == e.path
    ensures BlurVisits(WalkEntry(env, e, anc, level, dev)) == BlurVisits(WalkEntry(Full(env), f, anc, level, dev))
    decreases Unused(env, anc), 2, 0
  {
    var v, w := Visit(e.path, e, level), Visit(f.path, f, level);
    assert BlurVisits([v]) == BlurVisits([w]);
    BlurConcat([v], WalkRest(env, e, anc, level, dev));
    BlurConcat([w], WalkRest(Full(env), f, anc, level, dev));
    if e.info.D? {
      assert e == f;
      BelowAgrees(env, e, anc, level, dev);
    } else {
      assert WalkRest(env, e, anc, level, dev) == [] == WalkRest(Full(env), f, anc, level, dev);
    }
  }

  lemma {:induction false} BelowAgrees(env: Env, e: Entry, anc: seq<Id>, level: nat, dev: int)
    requires Fast(env) && EnvOk(Full(env)) && e.info.D? && Counted(env, e)
    requires PathOk(e.path) && Fresh(env, e, anc)
    ensures BlurVisits(WalkBelow(env, e, anc, level, dev)) == BlurVisits(WalkBelow(Full(env), e, anc, level, dev))
    decreases Unused(env, anc), 1, 0
  {
    if env.skip(See(Visit(e.path, e, level))) || (env.xdev && e.id.dev != dev) || env.list(e.path).None? {
      assert WalkBelow(env, e, anc, level, dev) == WalkBelow(Full(env), e, anc, level, dev);
    } else {
      var inner, ds := anc + [e.id], env.list(e.path).value;
      ChildrenAgree(env, e, inner);
      var kids, all := Children(env, e, inner, ds), Children(Full(env), e, inner, ds);
      assert |BlurAll(kids)| == |BlurAll(all)|;
      if kids != [] {
        ChildrenAreOk(env, e, inner);
        ChildrenAreOk(Full(env), e, inner);
        ChildPathsOk(env, kids, e.path, inner);
        ChildPathsOk(Full(env), all, e.path, inner);
        UnusedShrinks(env, anc, e.id);
        ListAgrees(env, kids, all, inner, level + 1, dev, e.path);
        BlurConcat(WalkList(env, kids, inner, level + 1, dev), [Post(e, level)]);
        BlurConcat(WalkList(Full(env), all, inner, level + 1, dev), [Post(e, level)]);
      }
    }
  }

  lemma {:induction false} ListAgrees(env: Env, es: seq<Entry>, fs: seq<Entry>, anc: seq<Id>, level: nat, dev: int, dir: string)
    requires Fast(env) && EnvOk(Full(env)) && BlurAll(es) == BlurAll(fs) && AllCounted(env, es)
    requires Walkable(env, es, anc) && Walkable(Full(env), fs, anc)
    requires ChildrenOk(env, es, dir, anc) && ChildrenOk(Full(env), fs, dir, anc)
    ensures BlurVisits(WalkList(env, es, anc, level, dev)) == BlurVisits(WalkList(Full(env), fs, anc, level, dev))
    decreases Unused(env, anc), 3, |es|
  {
    assert |es| == |BlurAll(es)| == |BlurAll(fs)| == |fs|;
    if es != [] {
      assert ChildOk(env, es[0], dir, anc) && ChildOk(Full(env), fs[0], dir, anc);
      assert Blur(es[0]) == BlurAll(es)[0] == BlurAll(fs)[0] == Blur(fs[0]);
      EntryAgrees(env, es[0], fs[0], anc, level, dev);
      forall i | 0 <= i < |es[1..]|
        ensures ChildOk(env, es[1..][i], dir, anc) && ChildOk(Full(env), fs[1..][i], dir, anc)
        ensures Blur(es[1..][i]) == Blur(fs[1..][i])
      {
        assert ChildOk(env, es[i + 1], dir, anc) && ChildOk(Full(env), fs[i + 1], dir, anc);
        assert BlurAll(es)[i + 1] == BlurAll(fs)[i + 1];
      }
      assert BlurAll(es[1..]) == BlurAll(fs[1..]);
      ListAgrees(env, es[1..], fs[1..], anc, level, dev, dir);
      BlurConcat(WalkEntry(env, es[0], anc, level, dev), WalkList(env, es[1..], anc, level, dev));
      BlurConcat(WalkEntry(Full(env), fs[0], anc, level, dev), WalkList(Full(env), fs[1..], anc, level, dev));
    }
  }

  /** The whole walk with FTS_NOSTAT visits what the walk without it visits: the same
      directories, before and after the same nodes, and every other node under the same path. */
  lemma {:induction false} FastWalkAgrees(env: Env, es: seq<Entry>)
    requires Fast(env) && RootsOk(env, es) && AllCounted(env, es)
    ensures EnvOk(Full(env)) && RootsOk(Full(env), es)
    ensures BlurVisits(WalkRoots(env, es)) == BlurVisits(WalkRoots(Full(env), es))
    decreases |es|
  {
    FullOk(env);
    forall i | 0 <= i < |es| ensures RootOk(Full(env), es[i]) { assert RootOk(env, es[i]); }
    if es != [] {
      assert RootOk(env, es[0]);
      var e := Loaded(env, es[0]);
      EntryAgrees(env, e, e, [], 0, e.id.dev);
      FastWalkAgrees(env, es[1..]);
      BlurConcat(WalkEntry(env, e, [], 0, e.id.dev), WalkRoots(env, es[1..]));
      BlurConcat(WalkEntry(Full(env), e, [], 0, e.id.dev), WalkRoots(Full(env), es[1..]));
    }
  }

  lemma {:induction false} RootEntryCounted(env: Env, arg: string)
    ensures Counted(env, RootEntry(env, arg)) && RootEntry(Full(env), arg) == RootEntry(env, arg)
  {
  }

  /** From the arguments of `fts_open` on: the two walks start from the same roots and agree. */
  lemma {:induction false} FastWalkFromArguments(env: Env, args: seq<string>)
    requires Fast(env) && forall i | 0 <= i < |args| :: PathOk(args[i])
    ensures RootsOk(env, RootList(env, args)) && EnvOk(Full(env)) && RootsOk(Full(env), RootList(Full(env), args))
    ensures BlurVisits(WalkRoots(env, RootList(env, args))) == BlurVisits(WalkRoots(Full(env), RootList(Full(env), args)))
  {
    FullOk(env);
    RootListOk(env, args);
    forall i | 0 <= i < |args|
      ensures Counted(env, RootEntry(env, args[i])) && RootEntry(Full(env), args[i]) == RootEntry(env, args[i])
    {
      RootEntryCounted(env, args[i]);
    }
    assert Roots(Full(env), args) == Roots(env, args);
    var all := if env.sorted then Reverse(Roots(env, args)) else Roots(env, args);
    forall i | 0 <= i < |RootList(env, args)| ensures Counted(env, RootList(env, args)[i]) {
      assert RootList(env, args)[i] in all;
    }
    FastWalkAgrees(env, RootList(env, args));
  }
}
