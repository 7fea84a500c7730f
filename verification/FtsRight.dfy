/**
 * When the walk that the code makes is the depth-first walk: for every content of the blocks that
 * `realloc` frees, exactly when no directory on the way has an entry that both makes the path buffer
 * move and is stat'ed.
 */
module FtsRight {
  import opened Common
  import opened FtsSpec
  import opened FtsCursor
  import opened FtsOrder
  import opened FtsGrow
  import opened FtsEnds

  ghost function SeeAll(vs: seq<Visit>): (r: seq<Seen>)
    ensures |r| == |vs|
  {
    if vs == [] then [] else [See(vs[0])] + SeeAll(vs[1..])
  }

  lemma {:induction false} SeeCons(v: Visit, vs: seq<Visit>)
    ensures SeeAll([v] + vs) == [See(v)] + SeeAll(vs)
  {
    assert ([v] + vs)[1..] == vs;
  }

  // ----- the run of the code -----

  /** Everything that further reads return, as the code makes it. */
  ghost function Run(env: Env, mv: Realloc, z: Levels, b: Buffer): seq<Visit>
    requires Ok(env, z)
    decreases Left(env, z)
  {
    if z == [] then []
    else
      EveryReadShrinks(env, mv, z, Skips(env, z), b);
      NextOnOk(env, mv, z, Skips(env, z), b);
      var s := NextOn(env, mv, z, Skips(env, z), b);
      if s.z == [] then []
      else [Visit(s.shown, Cur(s.z), |s.z| - 1)] + Run(env, mv, s.z, RoomAfter(env, mv, z, Skips(env, z), b))
  }

  lemma {:induction false} RunStep(env: Env, mv: Realloc, z: Levels, b: Buffer)
    requires Ok(env, z) && z != []
    ensures EnvOk(env)
    ensures var s := NextOn(env, mv, z, Skips(env, z), b);
            && Ok(env, s.z)
            && (s.z == [] ==> Run(env, mv, z, b) == [])
            && (s.z != [] ==>
                 && Left(env, s.z) < Left(env, z)
                 && Run(env, mv, z, b)
                    == [Visit(s.shown, Cur(s.z), |s.z| - 1)] + Run(env, mv, s.z, RoomAfter(env, mv, z, Skips(env, z), b)))
  {
    hide Ok, NextOn, Left, RoomAfter, Skips;
    EveryReadShrinks(env, mv, z, Skips(env, z), b);
    NextOnOk(env, mv, z, Skips(env, z), b);
  }

  /** As long as it is calm, the code's walk is the specified one. */
  lemma {:induction false} CalmRun(env: Env, mv: Realloc, z: Levels, shown: string, b: Buffer)
    requires Ok(env, z) && |z| > 0 && (Cur(z).info.D? ==> shown == Cur(z).path) && CalmAt(env, mv, b.cap, z, shown)
    ensures Run(env, mv, z, b) == Remaining(env, z)
    decreases Left(env, z)
  {
    hide Ok, NextOn, Next, Left, RoomAfter, Skips, CalmAt, Run, Remaining, ShelteredIn;
    CalmUnfold(env, mv, z, shown, b);
    NextOnIsNext(env, mv, z, Skips(env, z), b);
    RunStep(env, mv, z, b);
    StepFollowsWalk(env, z);
    var s := Next(env, z, Skips(env, z));
    if s.z != [] {
      FollowsIs(env, z, s);
      ShownOfNext(env, z, Skips(env, z));
      CalmRun(env, mv, s.z, s.shown, RoomAfter(env, mv, z, Skips(env, z), b));
    }
  }

  lemma {:induction false} ShownOfNext(env: Env, z: Levels, skip: bool)
    requires EnvOk(env) && |z| > 0
    ensures var s := Next(env, z, skip); s.z != [] && Cur(s.z).info.D? ==> s.shown == Cur(s.z).path
  {
  }

  // ----- a run shows all siblings -----

  predicate Closing(info: Info) {
    info.DP? || info.DNR?
  }

  /** The first visits on a level, before the walk goes above it. */
  function Openings(ss: seq<Seen>, level: int): seq<Seen> {
    if ss == [] || ss[0].level < level then []
    else (if ss[0].level == level && !Closing(ss[0].info) then [ss[0]] else []) + Openings(ss[1..], level)
  }

  ghost function Firsts(es: seq<Entry>, level: nat): (r: seq<Seen>)
    ensures |r| == |es| && forall i | 0 <= i < |es| :: r[i] == See(Visit(es[i].path, es[i], level))
  {
    if es == [] then [] else [See(Visit(es[0].path, es[0], level))] + Firsts(es[1..], level)
  }

  /** What one step does to the siblings on the level `k`. */
  lemma {:induction false} StepKeepsSiblings(env: Env, mv: Realloc, z: Levels, b: Buffer, k: nat)
    requires Ok(env, z) && EnvOk(env) && 1 <= k < |z|
    ensures var s := NextOn(env, mv, z, Skips(env, z), b);
            var n := |s.z| - 1;
            && (n < k ==> n == k - 1 && z[k].rest == [])
            && (n > k ==> s.z[k].rest == z[k].rest)
            && (n == k ==> (Closing(Cur(s.z).info) && s.z[k].rest == z[k].rest)
                           || (z[k].rest != [] && Cur(s.z) == z[k].rest[0] && s.z[k].rest == z[k].rest[1..]
                               && s.shown == Cur(s.z).path && !Closing(Cur(s.z).info)))
  {
    hide EnvOk, Built, Arrange, ChildOk;
    assert LevelOk(env, z, |z| - 1);
    if z[|z| - 1].rest != [] {
      assert ChildOk(env, z[|z| - 1].rest[0], z[|z| - 2].head.path, Anc(z, |z| - 1));
      NotClosing(env, z[|z| - 1].rest[0], z[|z| - 2].head.path, Anc(z, |z| - 1));
    }
  }

  lemma {:induction false} NotClosing(env: Env, e: Entry, parent: string, anc: seq<Id>)
    requires ChildOk(env, e, parent, anc)
    ensures !Closing(e.info)
  {
  }

  /** From any position on, all siblings still to come on a level are shown there. */
  lemma {:induction false} RunOpens(env: Env, mv: Realloc, z: Levels, b: Buffer, k: nat)
    requires Ok(env, z) && 1 <= k < |z|
    ensures Openings(SeeAll(Run(env, mv, z, b)), k) == Firsts(z[k].rest, k)
    decreases Left(env, z)
  {
    hide Ok, NextOn, Left, RoomAfter, Skips, Run, Closing;
    RunStep(env, mv, z, b);
    StepKeepsSiblings(env, mv, z, b, k);
    var s := NextOn(env, mv, z, Skips(env, z), b);
    if s.z != [] {
      var c := RoomAfter(env, mv, z, Skips(env, z), b);
      var v := Visit(s.shown, Cur(s.z), |s.z| - 1);
      SeeCons(v, Run(env, mv, s.z, c));
      assert ([See(v)] + SeeAll(Run(env, mv, s.z, c)))[1..] == SeeAll(Run(env, mv, s.z, c));
      if |s.z| - 1 >= k {
        RunOpens(env, mv, s.z, c, k);
      }
    }
  }

  /** So two runs that show the same from a position on where a directory was read found the same in it. */
  lemma {:induction false} SameSeenSameKids(env: Env, mv: Realloc, nw: Realloc, z: Levels, b: Buffer, kids: seq<Entry>, all: seq<Entry>)
    requires Ok(env, z) && |z| > 0 && EnvOk(env) && kids != [] && all != []
    requires NextOn(env, mv, z, Skips(env, z), b) == Stand(z + [Level(kids[0], kids[1..])])
    requires NextOn(env, nw, z, Skips(env, z), b) == Stand(z + [Level(all[0], all[1..])])
    requires SeeAll(Run(env, mv, z, b)) == SeeAll(Run(env, nw, z, b))
    ensures Firsts(kids, |z|) == Firsts(all, |z|)
  {
    hide Ok, EnvOk, NextOn, Left, RoomAfter, Skips, Run, Closing;
    KidsShown(env, mv, z, b, kids);
    KidsShown(env, nw, z, b, all);
    assert kids == [kids[0]] + kids[1..] && all == [all[0]] + all[1..];
  }

  lemma {:induction false} KidsShown(env: Env, mv: Realloc, z: Levels, b: Buffer, kids: seq<Entry>)
    requires Ok(env, z) && |z| > 0 && EnvOk(env) && kids != []
    requires NextOn(env, mv, z, Skips(env, z), b) == Stand(z + [Level(kids[0], kids[1..])])
    ensures var ss := SeeAll(Run(env, mv, z, b));
            ss != [] && Firsts(kids, |z|) == [ss[0]] + Openings(ss[1..], |z|)
  {
    hide Ok, EnvOk, NextOn, Left, RoomAfter, Skips, Closing, Openings, Run;
    RunStep(env, mv, z, b);
    var y := z + [Level(kids[0], kids[1..])];
    var c := RoomAfter(env, mv, z, Skips(env, z), b);
    RunOpens(env, mv, y, c, |z|);
    SeeCons(Visit(kids[0].path, kids[0], |z|), Run(env, mv, y, c));
  }

  // ----- an exposed entry shows -----

  /** A file system with a regular file and with a path at which there is nothing. */
  predicate Telling(env: Env, file: string, none: string) {
    && (if env.logical then env.stat(file) else env.lstat(file)).Found?
    && (if env.logical then env.stat(file) else env.lstat(file)).mode.ModeRegular?
    && env.stat(none).Failed? && env.lstat(none).Failed?
  }

  /** Freed blocks that read as `stale` says. */
  function Holding(mv: Realloc, stale: nat -> string): Realloc {
    mv.(stale := stale)
  }

  /** Freed blocks that all read as `s`. */
  function Const(s: string): nat -> string {
    _ => s
  }

  ghost predicate Lists(es: seq<Entry>, path: string, info: Info) {
    exists i | 0 <= i < |es| :: es[i].path == path && es[i].info == info
  }

  lemma {:induction false} ToldApart(env: Env, file: string, none: string, name: string, anc: seq<Id>)
    requires Telling(env, file, none)
    ensures Statted(env, file, name, anc, false).info == F && Statted(env, none, name, anc, false).info == NS
  {
  }

  lemma {:induction false} GrownHolding(mv: Realloc, s: nat -> string, b: Buffer, need: nat)
    ensures Grown(Holding(mv, s), b, need) == Grown(mv, b, need)
  {
  }

  lemma {:induction false} ListsTail(e: Entry, es: seq<Entry>, path: string, info: Info)
    ensures Lists(es, path, info) ==> Lists([e] + es, path, info)
    ensures e.path == path && e.info == info ==> Lists([e] + es, path, info)
  {
    if Lists(es, path, info) {
      var i :| 0 <= i < |es| && es[i].path == path && es[i].info == info;
      assert ([e] + es)[i + 1] == es[i];
    }
    assert ([e] + es)[0] == e;
  }

  /** The first exposed entry takes the looks of whatever the freed block names. */
  lemma {:induction false} Exposed(env: Env, mv: Realloc, base: string, anc: seq<Id>, nlinks: int, b: Buffer, ds: seq<Dirent>,
                                   file: string, none: string) returns (path: string)
    requires Telling(env, file, none) && !Sheltered(env, mv, base, nlinks, b.cap, ds)
    ensures Lists(Built(env, Holding(mv, Const(file)), base, anc, nlinks, b, ds), path, F)
    ensures Lists(Built(env, Holding(mv, Const(none)), base, anc, nlinks, b, ds), path, NS)
    decreases |ds|
  {
    hide EntryOf, Statted, LinksLeft, LinksAfter, Hidden, Grown, SkipsStat, Telling, Lists;
    var d, rest := ds[0], ds[1..];
    if Hidden(env, d) {
      path := Exposed(env, mv, base, anc, nlinks, b, rest, file, none);
    } else {
      var need := Need(base, d);
      GrownHolding(mv, Const(file), b, need);
      GrownHolding(mv, Const(none), b, need);
      GrownCap(mv, b, need);
      var e := EntryBuilt(env, Holding(mv, Const(file)), base, anc, nlinks, b, d);
      var f := EntryBuilt(env, Holding(mv, Const(none)), base, anc, nlinks, b, d);
      var es := Built(env, Holding(mv, Const(file)), base, anc, LinksAfter(env, nlinks, d.dtype, e.info), Grown(mv, b, need), rest);
      var fs := Built(env, Holding(mv, Const(none)), base, anc, LinksAfter(env, nlinks, d.dtype, f.info), Grown(mv, b, need), rest);
      if Moves(mv, b.cap, need) && !SkipsStat(env, nlinks, d.dtype) {
        ToldApart(env, file, none, d.name, anc);
        path := base + d.name;
      } else {
        LinksLeftIs(env, base, anc, nlinks, d);
        path := Exposed(env, mv, base, anc, LinksLeft(env, base, nlinks, d), Grown(mv, b, need), rest, file, none);
      }
      ListsTail(e, es, path, F);
      ListsTail(f, fs, path, NS);
    }
  }

  lemma {:induction false} GrownCap(mv: Realloc, b: Buffer, need: nat)
    ensures Grown(mv, b, need).cap == Roomy(b.cap, need)
  {
  }

  // ----- names are distinct -----

  ghost predicate DistinctNames(ds: seq<Dirent>) {
    forall i, j | 0 <= i < j < |ds| :: ds[i].name != ds[j].name
  }

  ghost predicate DistinctIn(env: Env, path: string) {
    env.list(path).Some? ==> DistinctNames(env.list(path).value)
  }

  lemma {:induction false} ScanPaths(env: Env, base: string, anc: seq<Id>, nlinks: int, ds: seq<Dirent>, path: string, info: Info)
    requires Lists(Scan(env, base, anc, nlinks, ds), path, info)
    ensures exists j | 0 <= j < |ds| :: path == base + ds[j].name
    decreases |ds|
  {
    hide EntryOf, LinksAfter, Hidden;
    if Hidden(env, ds[0]) {
      ScanPaths(env, base, anc, nlinks, ds[1..], path, info);
      var j :| 0 <= j < |ds[1..]| && path == base + ds[1..][j].name;
      assert ds[j + 1] == ds[1..][j];
    } else {
      var e := EntryOf(env, base, anc, nlinks, ds[0]);
      var left := LinksAfter(env, nlinks, ds[0].dtype, e.info);
      var rest := Scan(env, base, anc, left, ds[1..]);
      EntryOfPath(env, base, anc, nlinks, ds[0]);
      var i :| 0 <= i < |[e] + rest| && ([e] + rest)[i].path == path && ([e] + rest)[i].info == info;
      if i > 0 {
        assert rest[i - 1] == ([e] + rest)[i];
        ScanPaths(env, base, anc, left, ds[1..], path, info);
        var j :| 0 <= j < |ds[1..]| && path == base + ds[1..][j].name;
        assert ds[j + 1] == ds[1..][j];
      }
    }
  }

  lemma {:induction false} EntryOfPath(env: Env, base: string, anc: seq<Id>, nlinks: int, d: Dirent)
    ensures EntryOf(env, base, anc, nlinks, d).path == base + d.name
  {
  }

  lemma {:induction false} ScanOnce(env: Env, base: string, anc: seq<Id>, nlinks: int, ds: seq<Dirent>, path: string, x: Info, y: Info)
    requires DistinctNames(ds)
    requires Lists(Scan(env, base, anc, nlinks, ds), path, x) && Lists(Scan(env, base, anc, nlinks, ds), path, y)
    ensures x == y
    decreases |ds|
  {
    hide EntryOf, LinksAfter, Hidden;
    if Hidden(env, ds[0]) {
      ScanOnce(env, base, anc, nlinks, ds[1..], path, x, y);
    } else {
      var e := EntryOf(env, base, anc, nlinks, ds[0]);
      var left := LinksAfter(env, nlinks, ds[0].dtype, e.info);
      var rest := Scan(env, base, anc, left, ds[1..]);
      EntryOfPath(env, base, anc, nlinks, ds[0]);
      NotInRest(env, base, anc, left, ds, path, x);
      NotInRest(env, base, anc, left, ds, path, y);
      var i :| 0 <= i < |[e] + rest| && ([e] + rest)[i].path == path && ([e] + rest)[i].info == x;
      var j :| 0 <= j < |[e] + rest| && ([e] + rest)[j].path == path && ([e] + rest)[j].info == y;
      assert i > 0 ==> rest[i - 1].path == path && rest[i - 1].info == x;
      assert j > 0 ==> rest[j - 1].path == path && rest[j - 1].info == y;
      if path != base + ds[0].name {
        ScanOnce(env, base, anc, left, ds[1..], path, x, y);
      }
    }
  }

  lemma {:induction false} NotInRest(env: Env, base: string, anc: seq<Id>, left: int, ds: seq<Dirent>, path: string, x: Info)
    requires ds != [] && DistinctNames(ds)
    ensures Lists(Scan(env, base, anc, left, ds[1..]), path, x) ==> path != base + ds[0].name
  {
    hide Scan;
    if Lists(Scan(env, base, anc, left, ds[1..]), path, x) {
      ScanPaths(env, base, anc, left, ds[1..], path, x);
      var j :| 0 <= j < |ds[1..]| && path == base + ds[1..][j].name;
      assert ds[j + 1] == ds[1..][j];
      Drops(base, ds[0].name);
      Drops(base, ds[j + 1].name);
    }
  }

  lemma {:induction false} Drops(base: string, name: string)
    ensures (base + name)[|base|..] == name
  {
  }

  lemma {:induction false} ListsPermuted(a: seq<Entry>, c: seq<Entry>, path: string, info: Info)
    requires multiset(a) == multiset(c) && Lists(a, path, info)
    ensures Lists(c, path, info)
  {
    var i :| 0 <= i < |a| && a[i].path == path && a[i].info == info;
    assert a[i] in multiset(c);
    var j := FindIn(a[i], c);
  }

  lemma {:induction false} ListsShown(a: seq<Entry>, c: seq<Entry>, level: nat, path: string, info: Info)
    requires Firsts(a, level) == Firsts(c, level) && Lists(a, path, info)
    ensures Lists(c, path, info)
  {
    var i :| 0 <= i < |a| && a[i].path == path && a[i].info == info;
    assert |a| == |c|;
    assert Firsts(a, level)[i] == Firsts(c, level)[i];
  }

  // ----- the theorem -----

  function Still(mv: Realloc): Realloc {
    mv.(moves := _ => false)
  }

  /** A directory with an exposed entry shows: two runs that see alike have the same entries listed. */
  lemma {:induction false} SameLooks(env: Env, mv: Realloc, z: Levels, b: Buffer, ds: seq<Dirent>, path: string, info: Info)
    requires Ok(env, z) && |z| > 0 && EnvOk(env) && Enters(env, z, Skips(env, z)) && env.list(Cur(z).path) == Some(ds)
    requires SeeAll(Run(env, mv, z, b)) == SeeAll(Run(env, Still(mv), z, b))
    requires Lists(Built(env, mv, Base(Cur(z).path), Anc(z, |z|), LinksOf(env, Cur(z)), b, ds), path, info)
    ensures Lists(Scan(env, Base(Cur(z).path), Anc(z, |z|), LinksOf(env, Cur(z)), ds), path, info)
  {
    hide Ok, EnvOk, Built, Scan, Run, Skips, Arrange, Firsts, Lists, Sheltered;
    var base, anc, nlinks := Base(Cur(z).path), Anc(z, |z|), LinksOf(env, Cur(z));
    var es, fs := Built(env, mv, base, anc, nlinks, b, ds), Scan(env, base, anc, nlinks, ds);
    StillShelters(env, mv, base, nlinks, b, ds);
    ShelteredIsScan(env, Still(mv), base, anc, nlinks, b, ds);
    ArrangeSorts(env, es);
    ArrangeSorts(env, fs);
    ListsPermuted(es, Arrange(env, es), path, info);
    SameSize(env, mv, base, anc, nlinks, b, ds);
    ListsSome(es, path, info);
    SameSeenSameKids(env, mv, Still(mv), z, b, Arrange(env, es), Arrange(env, fs));
    ListsShown(Arrange(env, es), Arrange(env, fs), |z|, path, info);
    ListsPermuted(Arrange(env, fs), fs, path, info);
  }

  lemma {:induction false} ListsSome(es: seq<Entry>, path: string, info: Info)
    requires Lists(es, path, info)
    ensures es != []
  {
  }

  lemma {:induction false} StillShelters(env: Env, mv: Realloc, base: string, nlinks: int, b: Buffer, ds: seq<Dirent>)
    ensures Sheltered(env, Still(mv), base, nlinks, b.cap, ds)
  {
    ShortShelters(env, Still(mv), base, nlinks, b, ds);
  }

  lemma {:induction false} SameSize(env: Env, mv: Realloc, base: string, anc: seq<Id>, nlinks: int, b: Buffer, ds: seq<Dirent>)
    ensures |Built(env, mv, base, anc, nlinks, b, ds)| == |Scan(env, base, anc, nlinks, ds)|
  {
    SameSizes(env, mv, base, anc, nlinks, nlinks, b, ds);
  }

  lemma {:induction false} SameSizes(env: Env, mv: Realloc, base: string, anc: seq<Id>, m: int, n: int, b: Buffer, ds: seq<Dirent>)
    ensures |Built(env, mv, base, anc, m, b, ds)| == |Scan(env, base, anc, n, ds)|
    decreases |ds|
  {
    hide EntryBuilt, EntryOf, LinksAfter, Hidden, Grown;
    if ds != [] {
      if Hidden(env, ds[0]) {
        SameSizes(env, mv, base, anc, m, n, b, ds[1..]);
      } else {
        var e, f := EntryBuilt(env, mv, base, anc, m, b, ds[0]), EntryOf(env, base, anc, n, ds[0]);
        SameSizes(env, mv, base, anc, LinksAfter(env, m, ds[0].dtype, e.info), LinksAfter(env, n, ds[0].dtype, f.info),
                  Grown(mv, b, Need(base, ds[0])), ds[1..]);
      }
    }
  }

  lemma {:induction false} StillIsSpec(env: Env, mv: Realloc, z: Levels, shown: string, b: Buffer)
    requires Ok(env, z) && |z| > 0 && (Cur(z).info.D? ==> shown == Cur(z).path)
    ensures Run(env, Still(mv), z, b) == Remaining(env, z)
  {
    hide Ok, Run, Remaining, Calm;
    ShortIsCalm(env, Still(mv), b.cap, z[0].head.id.dev, [Visit(shown, Cur(z), |z| - 1)] + Remaining(env, z));
    CalmRun(env, Still(mv), z, shown, b);
  }

  /** The run sees what the specification sees. */
  ghost predicate Right(env: Env, mv: Realloc, z: Levels, b: Buffer)
    requires Ok(env, z)
  {
    SeeAll(Run(env, mv, z, b)) == SeeAll(Remaining(env, z))
  }

  lemma {:induction false} ExposedIsWrong(env: Env, mv: Realloc, z: Levels, shown: string, b: Buffer, file: string, none: string)
    requires Ok(env, z) && |z| > 0 && (Cur(z).info.D? ==> shown == Cur(z).path)
    requires Telling(env, file, none) && DistinctIn(env, Cur(z).path)
    requires Enters(env, z, Skips(env, z)) && !ShelteredIn(env, mv, Cur(z), b.cap)
    ensures !Right(env, Holding(mv, Const(file)), z, b) || !Right(env, Holding(mv, Const(none)), z, b)
  {
    hide Ok, EnvOk, Built, Scan, Run, Remaining, Skips, Telling, Lists, Sheltered;
    OkEnv(env, z);
    var ds := env.list(Cur(z).path).value;
    var base, anc, nlinks := Base(Cur(z).path), Anc(z, |z|), LinksOf(env, Cur(z));
    if Right(env, Holding(mv, Const(file)), z, b) && Right(env, Holding(mv, Const(none)), z, b) {
      StillIsSpec(env, Holding(mv, Const(file)), z, shown, b);
      StillIsSpec(env, Holding(mv, Const(none)), z, shown, b);
      var path := Exposed(env, mv, base, anc, nlinks, b, ds, file, none);
      SameLooks(env, Holding(mv, Const(file)), z, b, ds, path, F);
      SameLooks(env, Holding(mv, Const(none)), z, b, ds, path, NS);
      ScanOnce(env, base, anc, nlinks, ds, path, F, NS);
    }
  }

  lemma {:induction false} RoomHolding(env: Env, mv: Realloc, s: nat -> string, base: string, b: Buffer, ds: seq<Dirent>)
    ensures Room(env, Holding(mv, s), base, b, ds) == Room(env, mv, base, b, ds)
    decreases |ds|
  {
    hide Hidden, Grown;
    if ds != [] {
      GrownHolding(mv, s, b, Need(base, ds[0]));
      RoomHolding(env, mv, s, base, if Hidden(env, ds[0]) then b else Grown(mv, b, Need(base, ds[0])), ds[1..]);
    }
  }

  lemma {:induction false} ShelterHolding(env: Env, mv: Realloc, s: nat -> string, base: string, nlinks: int, cap: nat, ds: seq<Dirent>)
    ensures Sheltered(env, Holding(mv, s), base, nlinks, cap, ds) <==> Sheltered(env, mv, base, nlinks, cap, ds)
    decreases |ds|
  {
    hide SkipsStat, LinksLeft, Roomy, Hidden;
    if ds != [] {
      ShelterHolding(env, mv, s, base, if Hidden(env, ds[0]) then nlinks else LinksLeft(env, base, nlinks, ds[0]),
                     if Hidden(env, ds[0]) then cap else Roomy(cap, Need(base, ds[0])), ds[1..]);
    }
  }

  lemma {:induction false} StepHolding(env: Env, mv: Realloc, s: nat -> string, z: Levels, b: Buffer)
    requires EnvOk(env) && |z| > 0 && (Enters(env, z, Skips(env, z)) ==> ShelteredIn(env, mv, Cur(z), b.cap))
    ensures NextOn(env, Holding(mv, s), z, Skips(env, z), b) == Next(env, z, Skips(env, z))
    ensures RoomAfter(env, Holding(mv, s), z, Skips(env, z), b) == RoomAfter(env, mv, z, Skips(env, z), b)
  {
    hide EnvOk, NextOn, Next, Sheltered, Room, Skips;
    if env.list(Cur(z).path).Some? {
      var ds := env.list(Cur(z).path).value;
      ShelterHolding(env, mv, s, Base(Cur(z).path), LinksOf(env, Cur(z)), b.cap, ds);
      RoomHolding(env, mv, s, Base(Cur(z).path), b, ds);
    }
    NextOnIsNext(env, Holding(mv, s), z, Skips(env, z), b);
  }

  /** After a step that is right, the run is right exactly when the rest of it is. */
  lemma {:induction false} RightStep(env: Env, mv: Realloc, s: nat -> string, z: Levels, b: Buffer)
    requires Ok(env, z) && |z| > 0 && EnvOk(env) && (Enters(env, z, Skips(env, z)) ==> ShelteredIn(env, mv, Cur(z), b.cap))
    ensures var n := Next(env, z, Skips(env, z));
            && Ok(env, n.z)
            && (n.z == [] ==> Right(env, Holding(mv, s), z, b))
            && (n.z != [] ==>
                 && Left(env, n.z) < Left(env, z)
                 && (Right(env, Holding(mv, s), z, b) <==> Right(env, Holding(mv, s), n.z, RoomAfter(env, mv, z, Skips(env, z), b))))
  {
    hide Ok, EnvOk, NextOn, Next, Left, RoomAfter, Skips, Run, Remaining, ShelteredIn, SeeAll;
    StepHolding(env, mv, s, z, b);
    RunStep(env, Holding(mv, s), z, b);
    StepFollowsWalk(env, z);
    var n := Next(env, z, Skips(env, z));
    if n.z != [] {
      FollowsIs(env, z, n);
      var v := Visit(n.shown, Cur(n.z), |n.z| - 1);
      var x, y := Run(env, Holding(mv, s), n.z, RoomAfter(env, mv, z, Skips(env, z), b)), Remaining(env, n.z);
      SeeCons(v, x);
      SeeCons(v, y);
      assert ([See(v)] + SeeAll(x))[1..] == SeeAll(x) && ([See(v)] + SeeAll(y))[1..] == SeeAll(y);
    }
  }

  /** From a position on, the run is right, whatever the freed blocks hold, if and only if it is calm;
      two contents are enough to tell. */
  lemma {:induction false} RightIff(env: Env, mv: Realloc, z: Levels, shown: string, b: Buffer, file: string, none: string)
    requires Ok(env, z) && |z| > 0 && (Cur(z).info.D? ==> shown == Cur(z).path)
    requires Telling(env, file, none) && forall path: string :: DistinctIn(env, path)
    ensures CalmAt(env, mv, b.cap, z, shown) <==> Right(env, Holding(mv, Const(file)), z, b) && Right(env, Holding(mv, Const(none)), z, b)
    decreases Left(env, z)
  {
    hide Ok, NextOn, Next, Left, RoomAfter, Skips, CalmAt, Right, ShelteredIn, Telling;
    CalmUnfold(env, mv, z, shown, b);
    if Enters(env, z, Skips(env, z)) && !ShelteredIn(env, mv, Cur(z), b.cap) {
      assert DistinctIn(env, Cur(z).path);
      ExposedIsWrong(env, mv, z, shown, b, file, none);
    } else {
      RightStep(env, mv, Const(file), z, b);
      RightStep(env, mv, Const(none), z, b);
      var s := Next(env, z, Skips(env, z));
      if s.z != [] {
        ShownOfNext(env, z, Skips(env, z));
        RightIff(env, mv, s.z, s.shown, RoomAfter(env, mv, z, Skips(env, z), b), file, none);
      }
    }
  }

  // ----- from the roots on -----

  ghost function RunRoots(env: Env, mv: Realloc, es: seq<Entry>, b: Buffer): seq<Visit>
    requires EnvOk(env) && RootsOk(env, es) && es != []
  {
    RootStepOk(env, es);
    var z := [Level(Loaded(env, es[0]), es[1..])];
    [Visit(es[0].path, Cur(z), 0)] + Run(env, mv, z, b)
  }

  ghost predicate RightFrom(env: Env, mv: Realloc, es: seq<Entry>, b: Buffer, s: nat -> string)
    requires EnvOk(env) && RootsOk(env, es) && es != []
  {
    SeeAll(RunRoots(env, Holding(mv, s), es, b)) == SeeAll(WalkRoots(env, es))
  }

  /** The first read starts the walk with the first buffer. */
  lemma {:induction false} CalmFirst(env: Env, mv: Realloc, cap: nat, es: seq<Entry>)
    requires EnvOk(env) && RootsOk(env, es) && es != []
    ensures var z := [Level(Loaded(env, es[0]), es[1..])];
            && Ok(env, z) && Cur(z).path == es[0].path
            && (Calm(env, mv, cap, 0, WalkRoots(env, es)) <==> CalmAt(env, mv, cap, z, Cur(z).path))
  {
    hide Calm, WalkRoots, Remaining, Ok, EnvOk;
    FirstStep(env, es);
    var z := [Level(Loaded(env, es[0]), es[1..])];
    assert RootOk(env, es[0]);
    AtRoot(env, mv, cap, 0, z[0].head.id.dev, WalkRoots(env, es));
  }

  lemma {:induction false} RightFromFirst(env: Env, mv: Realloc, es: seq<Entry>, b: Buffer, s: nat -> string)
    requires EnvOk(env) && RootsOk(env, es) && es != []
    ensures var z := [Level(Loaded(env, es[0]), es[1..])];
            Ok(env, z) && (RightFrom(env, mv, es, b, s) <==> Right(env, Holding(mv, s), z, b))
  {
    hide WalkRoots, Remaining, Ok, EnvOk, Run, RootsOk, SeeAll, Loaded;
    FirstStep(env, es);
    RootStepOk(env, es);
    var z := [Level(Loaded(env, es[0]), es[1..])];
    var v := Visit(es[0].path, Cur(z), 0);
    var x, y := Run(env, Holding(mv, s), z, b), Remaining(env, z);
    SeeCons(v, x);
    SeeCons(v, y);
    assert ([See(v)] + SeeAll(x))[1..] == SeeAll(x) && ([See(v)] + SeeAll(y))[1..] == SeeAll(y);
  }

  /** A calm walk is the depth-first walk of the roots. */
  lemma {:induction false} CalmWalk(env: Env, mv: Realloc, es: seq<Entry>, b: Buffer)
    requires EnvOk(env) && RootsOk(env, es) && es != [] && Calm(env, mv, b.cap, 0, WalkRoots(env, es))
    ensures RunRoots(env, mv, es, b) == WalkRoots(env, es)
  {
    hide WalkRoots, Remaining, Ok, EnvOk, Run, RootsOk, Calm, CalmAt, Loaded;
    CalmFirst(env, mv, b.cap, es);
    FirstStep(env, es);
    RootStepOk(env, es);
    var z := [Level(Loaded(env, es[0]), es[1..])];
    CalmRun(env, mv, z, Cur(z).path, b);
  }

  /** The whole walk is right, whatever the freed blocks hold, if and only if it is calm. */
  lemma {:induction false} WalkRightIff(env: Env, mv: Realloc, es: seq<Entry>, b: Buffer, file: string, none: string)
    requires EnvOk(env) && RootsOk(env, es) && es != []
    requires Telling(env, file, none) && forall path: string :: DistinctIn(env, path)
    ensures (forall s: nat -> string :: RightFrom(env, mv, es, b, s)) <==> Calm(env, mv, b.cap, 0, WalkRoots(env, es))
  {
    hide WalkRoots, Ok, EnvOk, Right, RightFrom, Calm, CalmAt, Telling, RootsOk, DistinctIn, Loaded;
    CalmFirst(env, mv, b.cap, es);
    var z := [Level(Loaded(env, es[0]), es[1..])];
    RightIff(env, mv, z, Cur(z).path, b, file, none);
    RightFromFirst(env, mv, es, b, Const(file));
    RightFromFirst(env, mv, es, b, Const(none));
    if Calm(env, mv, b.cap, 0, WalkRoots(env, es)) {
      forall s: nat -> string ensures RightFrom(env, mv, es, b, s) {
        CalmHolds(env, mv, z, Cur(z).path, b, s);
        RightFromFirst(env, mv, es, b, s);
      }
    }
  }

  lemma {:induction false} CalmHolding(env: Env, mv: Realloc, s: nat -> string, cap: nat, dev: int, vs: seq<Visit>)
    ensures Calm(env, Holding(mv, s), cap, dev, vs) <==> Calm(env, mv, cap, dev, vs)
    decreases |vs|
  {
    hide IsRead, Sheltered, Room;
    if vs != [] {
      var v := vs[0];
      var on := DevAt(v, dev);
      if env.list(v.e.path).Some? {
        ShelterHolding(env, mv, s, Base(v.e.path), LinksOf(env, v.e), cap, env.list(v.e.path).value);
        RoomHolding(env, mv, s, Base(v.e.path), Buffer(cap, 0), env.list(v.e.path).value);
      }
      CalmHolding(env, mv, s, if IsRead(env, v, on) then RoomIn(env, mv, v.e.path, Buffer(cap, 0)).cap else cap, on, vs[1..]);
    }
  }

  lemma {:induction false} CalmHolds(env: Env, mv: Realloc, z: Levels, shown: string, b: Buffer, s: nat -> string)
    requires Ok(env, z) && |z| > 0 && (Cur(z).info.D? ==> shown == Cur(z).path) && CalmAt(env, mv, b.cap, z, shown)
    ensures Right(env, Holding(mv, s), z, b)
  {
    hide Ok, Calm, Run, Remaining;
    CalmHolding(env, mv, s, b.cap, z[0].head.id.dev, [Visit(shown, Cur(z), |z| - 1)] + Remaining(env, z));
    CalmRun(env, Holding(mv, s), z, shown, b);
  }
}
