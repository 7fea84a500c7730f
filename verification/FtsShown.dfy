/**
 * When the string in the path buffer is the path of the node that `fts_read` returns: on every
 * visit, exactly when no root is an empty directory whose path ends in '/' or ':'.
 */
module FtsShown {
  import opened Common
  import opened FtsSpec

  /** Every visit finds the node's own path in the buffer. */
  ghost predicate Spelled(vs: seq<Visit>) {
    forall i | 0 <= i < |vs| :: vs[i].shown == vs[i].e.path
  }

  predicate Plain(path: string) {
    Base(path) != path
  }

  predicate Visible(env: Env, ds: seq<Dirent>) {
    exists i | 0 <= i < |ds| :: !Hidden(env, ds[i])
  }

  /** A root that is read and found empty, and whose path ends in '/' or ':'. */
  predicate Cut(env: Env, root: Entry) {
    && root.info.D? && !Plain(root.path)
    && !env.skip(See(Visit(root.path, Loaded(env, root), 0)))
    && env.list(root.path).Some? && !Visible(env, env.list(root.path).value)
  }

  lemma {:induction false} SpelledConcat(a: seq<Visit>, b: seq<Visit>)
    ensures Spelled(a + b) <==> Spelled(a) && Spelled(b)
  {
    if Spelled(a + b) {
      assert forall i | 0 <= i < |a| :: (a + b)[i] == a[i];
      assert forall i | 0 <= i < |b| :: (a + b)[|a| + i] == b[i];
    }
  }

  lemma {:induction false} SpelledOne(v: Visit)
    ensures Spelled([v]) <==> v.shown == v.e.path
  {
    assert [v][0] == v;
  }

  lemma {:induction false} ShownEmptyIff(path: string)
    requires PathOk(path)
    ensures ShownEmpty(path) == path <==> Plain(path)
  {
  }

  lemma {:induction false} ChildPlain(env: Env, e: Entry, parent: string, anc: seq<Id>)
    requires ChildOk(env, e, parent, anc)
    ensures Plain(e.path)
  {
    assert e.path[|e.path| - 1] == e.name[|e.name| - 1];
  }

  lemma {:induction false} ScanNone(env: Env, base: string, anc: seq<Id>, nlinks: int, ds: seq<Dirent>)
    ensures Scan(env, base, anc, nlinks, ds) == [] <==> !Visible(env, ds)
  {
    hide Hidden, EntryOf, LinksAfter;
    if ds != [] {
      if Hidden(env, ds[0]) {
        ScanNone(env, base, anc, nlinks, ds[1..]);
        assert forall i | 0 < i < |ds| :: ds[i] == ds[1..][i - 1];
        assert forall i | 0 <= i < |ds[1..]| :: ds[1..][i] == ds[i + 1];
      } else {
        assert !Hidden(env, ds[0]);
      }
    }
  }

  /** The visits between the first one and the last one of a directory. */
  lemma {:induction false} BelowSpelledIff(env: Env, e: Entry, anc: seq<Id>, level: nat, dev: int)
    requires EnvOk(env) && PathOk(e.path) && Fresh(env, e, anc) && e.info.D?
    ensures Spelled(WalkBelow(env, e, anc, level, dev)) <==>
              || Plain(e.path) || env.skip(See(Visit(e.path, e, level))) || (env.xdev && e.id.dev != dev)
              || env.list(e.path).None? || Visible(env, env.list(e.path).value)
    decreases Unused(env, anc), 1, 0
  {
    hide EnvOk, Fresh, Scan, PathOk, Base, Visible, Walkable, Spelled;
    SpelledOne(Post(e, level));
    if env.skip(See(Visit(e.path, e, level))) || (env.xdev && e.id.dev != dev) {
    } else if env.list(e.path).None? {
      SpelledOne(Visit(e.path, e.(info := DNR, errno := env.dnrErrno), level));
    } else {
      var ds := env.list(e.path).value;
      var kids := Children(env, e, anc + [e.id], ds);
      ScanNone(env, Base(e.path), anc + [e.id], LinksOf(env, e), ds);
      if kids == [] {
        ShownEmptyIff(e.path);
        SpelledOne(Visit(ShownEmpty(e.path), e.(info := DP), level));
      } else {
        ChildrenAreOk(env, e, anc + [e.id]);
        PathHasNoNul(e.path);
        ChildPathsOk(env, kids, e.path, anc + [e.id]);
        FreshIs(env, e, anc);
        UnusedShrinks(env, anc, e.id);
        ListSpelled(env, kids, anc + [e.id], level + 1, dev, e.path);
        SpelledConcat(WalkList(env, kids, anc + [e.id], level + 1, dev), [Post(e, level)]);
      }
    }
  }

  lemma {:induction false} PathHasNoNul(path: string)
    requires PathOk(path)
    ensures '\0' !in path
  {
  }

  lemma {:induction false} FreshIs(env: Env, e: Entry, anc: seq<Id>)
    requires Fresh(env, e, anc) && e.info.D?
    ensures e.id in env.ids && e.id !in anc
  {
  }

  lemma {:induction false} EntrySpelledIff(env: Env, e: Entry, anc: seq<Id>, level: nat, dev: int)
    requires EnvOk(env) && PathOk(e.path) && Fresh(env, e, anc)
    ensures Spelled(WalkEntry(env, e, anc, level, dev)) <==>
              || !e.info.D? || Plain(e.path) || env.skip(See(Visit(e.path, e, level))) || (env.xdev && e.id.dev != dev)
              || env.list(e.path).None? || Visible(env, env.list(e.path).value)
    decreases Unused(env, anc), 2, 0
  {
    hide EnvOk, Fresh, PathOk, WalkBelow, Plain, Visible, Spelled;
    var v := Visit(e.path, e, level);
    SpelledOne(v);
    SpelledConcat([v], WalkRest(env, e, anc, level, dev));
    if e.info.D? {
      BelowSpelledIff(env, e, anc, level, dev);
    } else {
      assert [v] + [] == [v];
    }
  }

  lemma {:induction false} ListSpelled(env: Env, es: seq<Entry>, anc: seq<Id>, level: nat, dev: int, dir: string)
    requires EnvOk(env) && Walkable(env, es, anc) && ChildrenOk(env, es, dir, anc)
    ensures Spelled(WalkList(env, es, anc, level, dev))
    decreases Unused(env, anc), 3, |es|
  {
    hide EnvOk, Fresh, PathOk, WalkEntry, Plain, Visible, ChildOk;
    if es != [] {
      assert ChildOk(env, es[0], dir, anc);
      ChildPlain(env, es[0], dir, anc);
      EntrySpelledIff(env, es[0], anc, level, dev);
      forall i | 0 <= i < |es[1..]| ensures ChildOk(env, es[1..][i], dir, anc) {
        assert ChildOk(env, es[i + 1], dir, anc);
      }
      ListSpelled(env, es[1..], anc, level, dev, dir);
      SpelledConcat(WalkEntry(env, es[0], anc, level, dev), WalkList(env, es[1..], anc, level, dev));
    }
  }

  /** The buffer spells the node's path on every visit of the walk if and only if no root is cut. */
  lemma {:induction false} WalkSpelledIff(env: Env, es: seq<Entry>)
    requires EnvOk(env) && RootsOk(env, es)
    ensures Spelled(WalkRoots(env, es)) <==> forall i | 0 <= i < |es| :: !Cut(env, es[i])
    decreases |es|
  {
    hide EnvOk, PathOk, WalkEntry, Plain, Visible;
    if es != [] {
      assert RootOk(env, es[0]);
      var e := Loaded(env, es[0]);
      EntrySpelledIff(env, e, [], 0, e.id.dev);
      WalkSpelledIff(env, es[1..]);
      SpelledConcat(WalkEntry(env, e, [], 0, e.id.dev), WalkRoots(env, es[1..]));
      assert Spelled(WalkEntry(env, e, [], 0, e.id.dev)) <==> !Cut(env, es[0]);
      assert forall i | 0 < i < |es| :: es[i] == es[1..][i - 1];
      assert forall i | 0 <= i < |es[1..]| :: es[1..][i] == es[i + 1];
    }
  }

  /** In particular when no root's path ends in '/' or ':'. */
  lemma {:induction false} PlainRootsSpelled(env: Env, args: seq<string>)
    requires EnvOk(env) && forall i | 0 <= i < |args| :: PathOk(args[i]) && Plain(args[i])
    ensures RootsOk(env, RootList(env, args)) && Spelled(WalkRoots(env, RootList(env, args)))
  {
    hide EnvOk, PathOk, WalkRoots, Plain, RootsOk, Spelled;
    RootListOk(env, args);
    var es := RootList(env, args);
    forall i | 0 <= i < |es| ensures !Cut(env, es[i]) {
      var j := RootIs(env, args, i);
    }
    WalkSpelledIff(env, es);
  }

  // ----- an empty root that is cut -----

  /** A file system with nothing but the empty directory `dir`. */
  function OneEmpty(dir: string): Env {
    var look := (path: string) => if path == dir then Found(ModeDir, Id(1, 1), 2) else Failed(2);
    Env(stat := look, lstat := look, list := path => if path == dir then Some([]) else None,
        ids := {Id(1, 1)}, dnrErrno := 13, logical := false, comfollow := false, nostat := false, physical := true,
        seedot := false, xdev := false, unixPaths := false, sorted := false, compar := (a, b) => 0,
        qsort := es => seq(|es|, i => i), skip := s => false)
  }

  lemma {:induction false} OneEmptyOk(dir: string)
    ensures EnvOk(OneEmpty(dir))
  {
    var env := OneEmpty(dir);
    forall es: seq<Entry> ensures QsortAt(env, es) {
      var perm := env.qsort(es);
      forall j | 0 <= j < |es| ensures j in perm {
        assert perm[j] == j;
      }
    }
  }

  /** Walking such a directory by a path that ends in '/' or ':' shows a string that has lost its
      last character in post-order, with the length of the whole path beside it. */
  lemma {:induction false} CutWalk(dir: string)
    requires PathOk(dir) && !Plain(dir) && !IsDot(dir)
    ensures EnvOk(OneEmpty(dir)) && RootsOk(OneEmpty(dir), RootList(OneEmpty(dir), [dir]))
    ensures var walk := WalkRoots(OneEmpty(dir), RootList(OneEmpty(dir), [dir]));
            |walk| == 2 && See(walk[1]).path == dir[..|dir| - 1] && See(walk[1]).pathlen == |dir|
  {
    hide EnvOk, PathOk;
    var env := OneEmpty(dir);
    OneEmptyOk(dir);
    RootListOk(env, [dir]);
    var e := Entry(dir, dir, D, Id(1, 1), 2, 0);
    assert RootEntry(env, dir) == e;
    assert Roots(env, [dir]) == [e];
    assert RootOk(env, [e][0]);
    assert [e][1..] == [];
    assert Children(env, e, [] + [e.id], []) == [];
    assert WalkRoots(env, [e]) == WalkEntry(env, e, [], 0, 1) + [];
  }
}
