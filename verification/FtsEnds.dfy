/**
 * Every walk ends, on any file graph and whatever the stat calls report: the names that can still be
 * shown are bounded by the directory listings and by the identities that are left to descend into.
 */
module FtsEnds {
  import opened Common
  import opened FtsSpec
  import opened FtsCursor
  import opened FtsOrder
  import opened FtsGrow

  /** At most so many visits belong to a node at `path` with `k` identities left below it. */
  function Weight(env: Env, path: string, k: nat): (w: nat)
    ensures w >= 2
    decreases k, 0
  {
    if k == 0 || env.list(path).None? then 2 else 2 + NamesWeight(env, Base(path), env.list(path).value, k - 1)
  }

  function NamesWeight(env: Env, base: string, ds: seq<Dirent>, k: nat): nat
    decreases k, 1 + |ds|
  {
    if ds == [] then 0 else Weight(env, base + ds[0].name, k) + NamesWeight(env, base, ds[1..], k)
  }

  function EntriesWeight(env: Env, es: seq<Entry>, k: nat): nat {
    if es == [] then 0 else Weight(env, es[0].path, k) + EntriesWeight(env, es[1..], k)
  }

  // ----- facts about the sums -----

  lemma {:induction false} WeightGrows(env: Env, path: string, k: nat, m: nat)
    requires k <= m
    ensures Weight(env, path, k) <= Weight(env, path, m)
    decreases k, 0
  {
    if k > 0 && env.list(path).Some? {
      NamesWeightGrows(env, Base(path), env.list(path).value, k - 1, m - 1);
    }
  }

  lemma {:induction false} NamesWeightGrows(env: Env, base: string, ds: seq<Dirent>, k: nat, m: nat)
    requires k <= m
    ensures NamesWeight(env, base, ds, k) <= NamesWeight(env, base, ds, m)
    decreases k, 1 + |ds|
  {
    if ds != [] {
      WeightGrows(env, base + ds[0].name, k, m);
      NamesWeightGrows(env, base, ds[1..], k, m);
    }
  }

  lemma {:induction false} EntriesConcat(env: Env, a: seq<Entry>, b: seq<Entry>, k: nat)
    ensures EntriesWeight(env, a + b, k) == EntriesWeight(env, a, k) + EntriesWeight(env, b, k)
    decreases |a|
  {
    hide Weight;
    if a == [] {
      assert a + b == b;
    } else {
      assert (a + b)[1..] == a[1..] + b;
      EntriesConcat(env, a[1..], b, k);
    }
  }

  lemma {:induction false} EntriesPermuted(env: Env, a: seq<Entry>, b: seq<Entry>, k: nat)
    requires multiset(a) == multiset(b)
    ensures EntriesWeight(env, a, k) == EntriesWeight(env, b, k)
    decreases |a|
  {
    hide Weight;
    if a == [] {
      assert |multiset(b)| == 0;
    } else {
      var j, rest := TakeOut(a, b);
      EntriesPermuted(env, a[1..], rest, k);
      EntriesConcat(env, b[..j], b[j + 1..], k);
      EntriesConcat(env, b[..j], [b[j]] + b[j + 1..], k);
      assert ([b[j]] + b[j + 1..])[1..] == b[j + 1..];
    }
  }

  lemma {:induction false} WithoutOne<T>(b: seq<T>, j: nat)
    requires j < |b|
    ensures b == b[..j] + ([b[j]] + b[j + 1..]) && multiset(b) == multiset(b[..j] + b[j + 1..]) + multiset{b[j]}
  {
    assert b == b[..j] + ([b[j]] + b[j + 1..]);
  }

  lemma {:induction false} FindIn<T>(x: T, b: seq<T>) returns (j: nat)
    requires x in multiset(b)
    ensures j < |b| && b[j] == x
  {
    j :| j < |b| && b[j] == x;
  }

  lemma {:induction false} TakeOut<T>(a: seq<T>, b: seq<T>) returns (j: nat, rest: seq<T>)
    requires a != [] && multiset(a) == multiset(b)
    ensures j < |b| && b[j] == a[0] && rest == b[..j] + b[j + 1..] && b == b[..j] + ([b[j]] + b[j + 1..])
    ensures multiset(a[1..]) == multiset(rest)
  {
    j := FindIn(a[0], b);
    rest := b[..j] + b[j + 1..];
    WithoutOne(b, j);
    WithoutOne(a, 0);
    assert a[..0] + a[1..] == a[1..];
    Cancel(multiset(a[1..]), multiset(rest), a[0]);
  }

  lemma {:induction false} Cancel<T>(a: multiset<T>, b: multiset<T>, x: T)
    requires a + multiset{x} == b + multiset{x}
    ensures a == b
  {
    assert (a + multiset{x}) - multiset{x} == a && (b + multiset{x}) - multiset{x} == b;
  }

  /** The nodes of a directory weigh no more than its names. */
  lemma {:induction false} BuiltWeight(env: Env, mv: Realloc, base: string, anc: seq<Id>, nlinks: int, b: Buffer,
                                       ds: seq<Dirent>, k: nat)
    ensures EntriesWeight(env, Built(env, mv, base, anc, nlinks, b, ds), k) <= NamesWeight(env, base, ds, k)
    decreases |ds|
  {
    hide Weight, EntryOf, Statted, LinksAfter, Hidden, Grown, SkipsStat, Moves;
    if ds != [] {
      if Hidden(env, ds[0]) {
        BuiltWeight(env, mv, base, anc, nlinks, b, ds[1..], k);
      } else {
        var e := EntryBuilt(env, mv, base, anc, nlinks, b, ds[0]);
        BuiltPath(env, mv, base, anc, nlinks, b, ds[0]);
        var left, room := LinksAfter(env, nlinks, ds[0].dtype, e.info), Grown(mv, b, Need(base, ds[0]));
        BuiltWeight(env, mv, base, anc, left, room, ds[1..], k);
        var rest := Built(env, mv, base, anc, left, room, ds[1..]);
        assert ([e] + rest)[1..] == rest;
      }
    }
  }

  lemma {:induction false} BuiltPath(env: Env, mv: Realloc, base: string, anc: seq<Id>, nlinks: int, b: Buffer, d: Dirent)
    ensures EntryBuilt(env, mv, base, anc, nlinks, b, d).path == base + d.name
  {
  }

  // ----- what a position can still show -----

  ghost function LeftAfter(env: Env, z: Levels): nat
    requires |z| > 0
    decreases |z|
  {
    EntriesWeight(env, z[|z| - 1].rest, Unused(env, Anc(z, |z| - 1))) + (if |z| == 1 then 0 else 1 + LeftAfter(env, z[..|z| - 1]))
  }

  ghost function Left(env: Env, z: Levels): nat {
    if z == [] then 0
    else (if Cur(z).info.D? then Weight(env, Cur(z).path, Unused(env, Anc(z, |z| - 1))) - 1 else 0) + LeftAfter(env, z)
  }

  lemma {:induction false} LeftAfterSame(env: Env, z: Levels, e: Entry)
    requires |z| > 0
    ensures LeftAfter(env, SetCur(z, e)) == LeftAfter(env, z)
  {
    hide EntriesWeight, Unused;
    assert Anc(SetCur(z, e), |z| - 1) == Anc(z, |z| - 1);
    if |z| > 1 {
      assert SetCur(z, e)[..|z| - 1] == z[..|z| - 1];
    }
  }

  lemma {:induction false} AdvanceShrinks(env: Env, z: Levels)
    requires |z| > 0 && !Cur(z).info.D? && Advance(env, z).z != []
    ensures Left(env, Advance(env, z).z) < Left(env, z)
  {
    hide Unused, Weight;
    var top := |z| - 1;
    var rest := z[top].rest;
    var y := Advance(env, z).z;
    if rest != [] {
      assert Anc(y, top) == Anc(z, top);
      if |z| > 1 {
        assert y[..top] == z[..top];
      }
    } else {
      LeftAfterSame(env, z[..top], Cur(z[..top]).(info := DP));
    }
  }

  lemma {:induction false} DescendShrinks(env: Env, mv: Realloc, z: Levels, b: Buffer)
    requires Ok(env, z) && |z| > 0 && Cur(z).info.D?
    ensures Left(env, DescendOn(env, mv, z, b).z) < Left(env, z)
  {
    hide Ok, EnvOk, Unused, Built, Arrange, Weight, LeftAfter;
    var e := Cur(z);
    OkEnv(env, z);
    WeightAtLeast(env, e.path, Unused(env, Anc(z, |z| - 1)));
    match env.list(e.path)
    case None => LeftAfterSame(env, z, e.(info := DNR, errno := env.dnrErrno));
    case Some(ds) =>
      var es := Built(env, mv, Base(e.path), Anc(z, |z|), LinksOf(env, e), b, ds);
      var kids := Arrange(env, es);
      if kids == [] {
        LeftAfterSame(env, z, e.(info := DP));
      } else {
        var k := Unused(env, Anc(z, |z|));
        ArrangeSorts(env, es);
        EntriesPermuted(env, kids, es, k);
        BuiltWeight(env, mv, Base(e.path), Anc(z, |z|), LinksOf(env, e), b, ds, k);
        IdUsed(env, z);
        NamesWeightGrows(env, Base(e.path), ds, k, Unused(env, Anc(z, |z| - 1)) - 1);
        WeightIs(env, e.path, Unused(env, Anc(z, |z| - 1)));
        PushedLeft(env, z, kids);
      }
  }

  lemma {:induction false} WeightAtLeast(env: Env, path: string, k: nat)
    ensures Weight(env, path, k) >= 2
  {
  }

  lemma {:induction false} WeightIs(env: Env, path: string, k: nat)
    requires k > 0 && env.list(path).Some?
    ensures Weight(env, path, k) == 2 + NamesWeight(env, Base(path), env.list(path).value, k - 1)
  {
  }

  /** Descending uses up the directory's identity. */
  lemma {:induction false} IdUsed(env: Env, z: Levels)
    requires Ok(env, z) && |z| > 0 && Cur(z).info.D?
    ensures Unused(env, Anc(z, |z|)) < Unused(env, Anc(z, |z| - 1))
  {
    hide Unused;
    assert LevelOk(env, z, |z| - 1);
    UnusedShrinks(env, Anc(z, |z| - 1), Cur(z).id);
    assert Anc(z, |z|) == Anc(z, |z| - 1) + [Cur(z).id];
  }

  lemma {:induction false} PushedLeft(env: Env, z: Levels, kids: seq<Entry>)
    requires |z| > 0 && kids != []
    ensures Left(env, z + [Level(kids[0], kids[1..])]) <= EntriesWeight(env, kids, Unused(env, Anc(z, |z|))) + LeftAfter(env, z)
  {
    hide Unused, Weight;
    var y := z + [Level(kids[0], kids[1..])];
    assert Anc(y, |z|) == Anc(z, |z|) && y[..|z|] == z;
    WeightAtLeast(env, kids[0].path, Unused(env, Anc(z, |z|)));
  }

  /** Every read that returns a node brings the walk nearer to its end. */
  lemma {:induction false} EveryReadShrinks(env: Env, mv: Realloc, z: Levels, skip: bool, b: Buffer)
    requires Ok(env, z) && |z| > 0
    ensures EnvOk(env) && (NextOn(env, mv, z, skip, b).z != [] ==> Left(env, NextOn(env, mv, z, skip, b).z) < Left(env, z))
  {
    hide Ok, EnvOk, Unused, DescendOn, Advance, LeftAfter, Weight;
    OkEnv(env, z);
    if !Cur(z).info.D? {
      if Advance(env, z).z != [] {
        AdvanceShrinks(env, z);
      }
    } else if Enters(env, z, skip) {
      DescendShrinks(env, mv, z, b);
    } else {
      WeightAtLeast(env, Cur(z).path, Unused(env, Anc(z, |z| - 1)));
      LeftAfterSame(env, z, Cur(z).(info := DP));
    }
  }

  /** And keeps the position well formed, whatever was stat'ed. */
  lemma {:induction false} NextOnOk(env: Env, mv: Realloc, z: Levels, skip: bool, b: Buffer)
    requires Ok(env, z) && |z| > 0
    ensures EnvOk(env) && Ok(env, NextOn(env, mv, z, skip, b).z)
  {
    hide Ok, Next, DescendOn;
    OkEnv(env, z);
    if Enters(env, z, skip) {
      DescendOnOk(env, mv, z, b);
    } else {
      NextOk(env, z, skip);
    }
  }

  lemma {:induction false} DescendOnOk(env: Env, mv: Realloc, z: Levels, b: Buffer)
    requires Ok(env, z) && |z| > 0 && Cur(z).info.D?
    ensures EnvOk(env) && Ok(env, DescendOn(env, mv, z, b).z)
  {
    hide Ok, Built, ChildOk;
    OkEnv(env, z);
    var e := Cur(z);
    match env.list(e.path)
    case None => SetCurOk(env, z, e.(info := DNR, errno := env.dnrErrno));
    case Some(ds) =>
      assert NamesAt(env, e.path);
      var es := Built(env, mv, Base(e.path), Anc(z, |z|), LinksOf(env, e), b, ds);
      BuiltOk(env, mv, e.path, Anc(z, |z|), LinksOf(env, e), b, ds);
      var kids := Arrange(env, es);
      forall i | 0 <= i < |kids| ensures ChildOk(env, kids[i], e.path, Anc(z, |z|)) {
        assert kids[i] in es;
      }
      if kids == [] {
        SetCurOk(env, z, e.(info := DP));
      } else {
        PushOk(env, z, kids);
      }
  }
}
