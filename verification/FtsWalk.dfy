/**
 * Whole runs of a caller over an fts stream: what a complete walk returns, and what is left
 * allocated after any run.
 */
module FtsWalk {
  import opened Common
  import opened FtsSpec
  import opened FtsCursor
  import opened FtsMemory
  import opened FtsPath
  import opened FtsGrow
  import opened FtsEnds
  import opened FtsRight
  import opened FtsStream

  /** The instruction only matters on a directory in pre-order, where the buffer spells its path. */
  lemma {:induction false} SkipIsSeen(env: Env, mv: Realloc, z: Levels, shown: string, skip: bool, b: Buffer)
    requires EnvOk(env) && |z| > 0 && Shows(z, shown) && skip == env.skip(See(Visit(shown, Cur(z), |z| - 1)))
    ensures Cur(z).info.D? ==> shown == Cur(z).path
    ensures NextOn(env, mv, z, skip, b) == NextOn(env, mv, z, Skips(env, z), b)
    ensures RoomAfter(env, mv, z, skip, b) == RoomAfter(env, mv, z, Skips(env, z), b)
  {
    hide DescendOn, RoomIn, EnvOk, Advance;
  }

  lemma {:induction false} WalkingShows(sp: Fts)
    requires sp.Walking()
    ensures |sp.z| > 0 && Ok(sp.env, sp.z) && Shows(sp.z, sp.shown) && EnvOk(sp.env)
    ensures sp.cur in sp.mem
  {
    CurFacts(sp.env, sp.mem, sp.ps, sp.top, sp.z, |sp.path|, sp.block, sp.dev);
  }

  /** What the code shows after the current node. */
  ghost function Coming(env: Env, mv: Realloc, z: Levels, b: Buffer): seq<Seen>
    requires Ok(env, z)
  {
    SeeAll(Run(env, mv, z, b))
  }

  lemma {:induction false} ComingStep(env: Env, mv: Realloc, z: Levels, b: Buffer)
    requires Ok(env, z) && |z| > 0 && EnvOk(env)
    ensures var s := NextOn(env, mv, z, Skips(env, z), b);
            && Ok(env, s.z)
            && (s.z == [] ==> Coming(env, mv, z, b) == [])
            && (s.z != [] ==>
                 && Left(env, s.z) < Left(env, z)
                 && Coming(env, mv, z, b)
                    == [See(Visit(s.shown, Cur(s.z), |s.z| - 1))] + Coming(env, mv, s.z, RoomAfter(env, mv, z, Skips(env, z), b)))
  {
    hide Ok, EnvOk, NextOn, Left, RoomAfter, Skips, Run;
    RunStep(env, mv, z, b);
    var s := NextOn(env, mv, z, Skips(env, z), b);
    if s.z != [] {
      SeeCons(Visit(s.shown, Cur(s.z), |s.z| - 1), Run(env, mv, s.z, RoomAfter(env, mv, z, Skips(env, z), b)));
    }
  }

  lemma {:induction false} ComingFirst(env: Env, mv: Realloc, es: seq<Entry>, b: Buffer)
    requires EnvOk(env) && RootsOk(env, es) && es != []
    ensures var z := [Level(Loaded(env, es[0]), es[1..])];
            && Ok(env, z)
            && SeeAll(RunRoots(env, mv, es, b)) == [See(Visit(Cur(z).path, Cur(z), 0))] + Coming(env, mv, z, b)
  {
    hide Ok, EnvOk, Run, RootOk;
    RootStepOk(env, es);
    RootNames(env, es);
    var z := [Level(Loaded(env, es[0]), es[1..])];
    SeeCons(Visit(es[0].path, Cur(z), 0), Run(env, mv, z, b));
  }

  /** A read after the caller's decision on the node it has just looked at: the walk comes nearer to
      its end, and the read shows the first of what was to come. */
  method Proceed(sp: Fts, s: Seen) returns (p: Ptr)
    requires sp.Walking() && AllQuiet(sp.mem) && |sp.z| > 0 && Ok(sp.env, sp.z)
    requires s == See(Visit(sp.shown, Cur(sp.z), |sp.z| - 1))
    modifies sp
    ensures p == sp.cur && (p == Null <==> sp.z == []) && (p == Null ==> sp.Over())
    ensures p != Null ==> sp.Walking() && AllQuiet(sp.mem) && Left(sp.env, sp.z) < Left(sp.env, old(sp.z))
    ensures Ok(sp.env, sp.z)
    ensures old(Coming(sp.env, sp.realloc, sp.z, sp.Buf()))
            == if p == Null then []
               else [See(Visit(sp.shown, Cur(sp.z), |sp.z| - 1))] + Coming(sp.env, sp.realloc, sp.z, sp.Buf())
  {
    hide Ok, NextOn, RoomAfter, See, Coming, LinkedState, Spells, Shows, Quiet, Left, IsPow2, Skips, EnvOk;
    WalkingShows(sp);
    var skip := sp.env.skip(s);
    SkipIsSeen(sp.env, sp.realloc, sp.z, sp.shown, skip, sp.Buf());
    ComingStep(sp.env, sp.realloc, sp.z, sp.Buf());
    if skip { sp.SetSkip(); }
    p := sp.Read();
  }

  /** Reading from an opened stream to its end. */
  method ReadAll(sp: Fts) returns (seen: seq<Seen>)
    requires sp.Opened() && sp.roots != [] && EnvOk(sp.env) && RootsOk(sp.env, sp.roots)
    modifies sp
    ensures seen == SeeAll(RunRoots(sp.env, sp.realloc, old(sp.roots), old(sp.Buf()))) && sp.mem == map[]
  {
    hide Ok, See, Coming, SeeAll, LinkedState, Spells, Shows, Quiet, OpenedState, EnvOk, Left, IsPow2, RunRoots, Loaded, RootsOk;
    seen := [];
    ghost var all := SeeAll(RunRoots(sp.env, sp.realloc, sp.roots, sp.Buf()));
    ComingFirst(sp.env, sp.realloc, sp.roots, sp.Buf());
    var p := sp.Read();
    while p != Null
      invariant p == sp.cur && (p == Null <==> sp.z == []) && (p == Null ==> sp.Over())
      invariant p != Null ==> sp.Walking() && AllQuiet(sp.mem)
      invariant Ok(sp.env, sp.z)
      invariant all == seen + if p == Null then []
                              else [See(Visit(sp.shown, Cur(sp.z), |sp.z| - 1))] + Coming(sp.env, sp.realloc, sp.z, sp.Buf())
      decreases if p == Null then 0 else 1 + Left(sp.env, sp.z)
    {
      var s := sp.Look();
      ghost var before := Coming(sp.env, sp.realloc, sp.z, sp.Buf());
      p := Proceed(sp, s);
      assert seen + ([s] + before) == (seen + [s]) + before;
      seen := seen + [s];
    }
  }

  /** A complete walk.  It ends, leaves nothing allocated and shows the run of the code from the roots,
      however the buffer moves.  If that run is calm, the caller sees exactly the visits of the
      depth-first walk of the roots, in order, each time with the node's path in the buffer. */
  method WalkAll(sp: Fts, args: seq<string>, junk: int) returns (ok: bool, seen: seq<Seen>)
    requires EnvOk(sp.env) && sp.mem == map[] && args != []
    requires forall i | 0 <= i < |args| :: args[i] != "" ==> PathOk(args[i])
    modifies sp
    ensures ok <==> forall i | 0 <= i < |args| :: args[i] != ""
    ensures ok ==>
              && RootsOk(sp.env, RootList(sp.env, args)) && RootList(sp.env, args) != []
              && seen == SeeAll(RunRoots(sp.env, sp.realloc, RootList(sp.env, args), Buffer(FirstRoom(args), 0)))
              && var walk := WalkRoots(sp.env, RootList(sp.env, args));
                 Calm(sp.env, sp.realloc, FirstRoom(args), 0, walk) ==> seen == SeeAll(walk)
    ensures sp.mem == map[]
  {
    hide SeeAll, WalkRoots, RootList, OpenedState, EnvOk, PathOk, Calm, FirstRoom, RunRoots, RootsOk;
    seen := [];
    ok := sp.Open(args, junk);
    if !ok {
      return;
    }
    RootListOk(sp.env, args);
    OpenedRoots(sp);
    if Calm(sp.env, sp.realloc, FirstRoom(args), 0, WalkRoots(sp.env, sp.roots)) {
      CalmWalk(sp.env, sp.realloc, sp.roots, sp.Buf());
    }
    seen := ReadAll(sp);
  }

  lemma {:induction false} OpenedRoots(sp: Fts)
    requires sp.Opened()
    ensures sp.roots != [] && EnvOk(sp.env) && RootsOk(sp.env, sp.roots)
  {
  }

  /** The simple cases: a `realloc` that never moves, or a first buffer with room for every name. */
  lemma {:induction false} CalmWhen(env: Env, mv: Realloc, args: seq<string>)
    requires EnvOk(env) && forall i | 0 <= i < |args| :: PathOk(args[i])
    requires InPlace(mv) || Short(env, MAXPATHLEN)
    ensures RootsOk(env, RootList(env, args)) && Calm(env, mv, FirstRoom(args), 0, WalkRoots(env, RootList(env, args)))
  {
    hide EnvOk, WalkRoots, RootList, Calm, PathOk;
    RootListOk(env, args);
    if Short(env, MAXPATHLEN) {
      forall path: string ensures ShortIn(env, path, FirstRoom(args)) {
        assert ShortIn(env, path, MAXPATHLEN);
      }
    }
    ShortIsCalm(env, mv, FirstRoom(args), 0, WalkRoots(env, RootList(env, args)));
  }

  /** Any reads with any instructions in between, and with a buffer that may move: `fts_close`
      leaves nothing allocated, unless nothing was read and the dummy node's level is negative. */
  method WalkSome(sp: Fts, args: seq<string>, junk: int, skips: seq<bool>) returns (ok: bool)
    requires EnvOk(sp.env) && sp.mem == map[] && args != []
    requires forall i | 0 <= i < |args| :: args[i] != "" ==> PathOk(args[i])
    modifies sp
    ensures ok <==> forall i | 0 <= i < |args| :: args[i] != ""
    ensures sp.mem == map[] <==> !ok || skips != [] || junk >= 0
  {
    hide Ok, Next, See, LinkedState, Spells, Shows, Quiet, RootList, EnvOk, PathOk, IsPow2, FirstRoom;
    ok := sp.Open(args, junk);
    if !ok {
      return;
    }
    OpenedLeft(sp);
    if skips == [] {
      sp.Close();
      return;
    }
    var p := sp.Read();
    for i := 1 to |skips|
      invariant p == sp.cur && (p == Null ==> sp.Over())
      invariant p != Null ==> sp.Walking() && AllQuiet(sp.mem) && sp.z != []
    {
      if p != Null && skips[i] { sp.SetSkip(); }
      p := sp.Read();
    }
    sp.Close();
  }

  lemma {:induction false} OpenedLeft(sp: Fts)
    requires sp.Opened()
    ensures sp.cur in sp.mem && sp.mem - {sp.cur} != map[]
  {
    assert sp.top in sp.mem - {sp.cur};
  }

  // ----- a walk that goes wrong -----

  function LongName(n: nat): string {
    seq(n, _ => 'a')
  }

  const DIR_ID := Id(1, 1)

  /** A file system with a directory "d" that holds one regular file. */
  function OneFile(name: string): Env {
    var look := (path: string) =>
      if path == "d" then Found(ModeDir, DIR_ID, 2) else if path == "d/" + name then Found(ModeRegular, NO_ID, 1) else Failed(2);
    Env(stat := look, lstat := look, list := path => if path == "d" then Some([Dirent(name, DtUnknown)]) else None,
        ids := {DIR_ID}, dnrErrno := 13, logical := false, comfollow := false, nostat := false, physical := true,
        seedot := false, xdev := false, unixPaths := false, sorted := false, compar := (a, b) => 0,
        qsort := es => seq(|es|, i => i), skip := s => false)
  }

  const DIR := Entry("d", "d", D, DIR_ID, 2, 0)

  lemma {:induction false} OneFileOk(n: nat)
    requires n > 2
    ensures EnvOk(OneFile(LongName(n))) && NameOk(LongName(n)) && PathOk("d")
    ensures RootList(OneFile(LongName(n)), ["d"]) == [DIR]
  {
    var env := OneFile(LongName(n));
    forall es: seq<Entry> ensures QsortAt(env, es) {
      var perm := env.qsort(es);
      forall j | 0 <= j < |es| ensures j in perm {
        assert perm[j] == j;
      }
    }
    assert Roots(env, ["d"]) == [DIR];
  }

  /** What the code makes of that directory, and what it should make of it. */
  lemma {:induction false} OneFileBuilt(n: nat, mv: Realloc, b: Buffer)
    requires n > 2 && EnvOk(OneFile(LongName(n)))
    ensures var env := OneFile(LongName(n));
            var path := "d/" + LongName(n);
            var z := [Level(DIR, [])];
            var e := Entry(path, LongName(n), F, NO_ID, 0, 0);
            && Descend(env, z) == Stand(z + [Level(e, [])])
            && (Moves(mv, b.cap, 2 + n) && mv.stale(b.block) != "d" && mv.stale(b.block) != path ==>
                  DescendOn(env, mv, z, b) == Stand(z + [Level(e.(info := NS, errno := 2), [])]))
  {
    hide EnvOk;
    var env, ds := OneFile(LongName(n)), [Dirent(LongName(n), DtUnknown)];
    var base := "d/";
    assert Base("d") == base && env.list("d") == Some(ds) && !Hidden(env, ds[0]) && ds[1..] == [];
    var z := [Level(DIR, [])];
    var e := Entry(base + LongName(n), LongName(n), F, NO_ID, 0, 0);
    assert Scan(env, base, Anc(z, 1), -1, ds) == [e];
    if Moves(mv, b.cap, 2 + n) && mv.stale(b.block) != "d" && mv.stale(b.block) != base + LongName(n) {
      assert Built(env, mv, base, Anc(z, 1), -1, b, ds) == [e.(info := NS, errno := 2)];
    }
  }

  lemma {:induction false} OneFileReads(n: nat, mv: Realloc, b: Buffer)
    requires EnvOk(OneFile(LongName(n)))
    ensures var env := OneFile(LongName(n));
            var z := [Level(DIR, [])];
            && Loaded(env, DIR) == DIR && !Skips(env, z)
            && NextOn(env, mv, z, false, b) == DescendOn(env, mv, z, b)
            && Next(env, z, false) == Descend(env, z)
  {
    hide EnvOk, Descend, DescendOn;
  }

  lemma {:induction false} FirstRoomIs(args: seq<string>)
    requires args == ["d"]
    ensures FirstRoom(args) == MAXPATHLEN
  {
    assert args[..0] == [];
    assert Longest(args) == 2;
    assert Pow2Ceil(4) == 4 && Pow2Ceil(16) == 4 * Pow2Ceil(4) && Pow2Ceil(64) == 4 * Pow2Ceil(16);
    assert Pow2Ceil(256) == 4 * Pow2Ceil(64) && Pow2Ceil(1024) == 4 * Pow2Ceil(256);
  }

  /** With a name that outgrows the first buffer and a `realloc` that then moves it, the second read
      shows an existing regular file as missing, whatever else the freed block reads as. */
  method MovedRun(n: nat, stale: string) returns (seen: Seen, ghost walk: seq<Visit>)
    requires n + 2 >= MAXPATHLEN && stale != "d" && stale != "d/" + LongName(n)
    ensures EnvOk(OneFile(LongName(n))) && RootsOk(OneFile(LongName(n)), [DIR]) && walk == WalkRoots(OneFile(LongName(n)), [DIR])
    ensures |walk| > 1 && walk[1].e.info == F && seen == See(walk[1]).(info := NS, errno := 2)
  {
    hide EnvOk, OneFile, LongName, WalkRoots, RootsOk, PathOk, OpenedState, LinkedState, Spells, Shows, Quiet, IsPow2, FirstRoom, RootList,
         Descend, DescendOn, Remaining, Ok, Next, NextOn, Pow2Ceil, Loaded, Skips;
    OneFileOk(n);
    var env := OneFile(LongName(n));
    RootListOk(env, ["d"]);
    var sp := new Fts(env, Realloc(_ => true, _ => stale));
    var ok := sp.Open(["d"], 0);
    FirstStep(env, [DIR]);
    OneFileReads(n, sp.realloc, sp.Buf());
    assert [DIR][1..] == [];
    var p := sp.Read();
    assert sp.z == [Level(DIR, [])];
    FirstRoomIs(["d"]);
    OneFileBuilt(n, sp.realloc, sp.Buf());
    OneFileReads(n, sp.realloc, sp.Buf());
    WalkingShows(sp);
    p := sp.Read();
    seen := sp.Look();
    walk := WalkRoots(env, [DIR]);
    StepFollowsWalk(env, [Level(DIR, [])]);
  }
}
