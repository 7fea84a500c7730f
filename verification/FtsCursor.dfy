/**
 * The position of a walk as a stack of levels: on each level the node being visited (or
 * descended) and the siblings still to come.  `Next` is one `fts_read` on such a position.
 * The theorem `StepFollowsWalk` says that a read returns the next visit of the recursive
 * walk and leaves a position that stands for exactly the rest of that walk.
 */
module FtsCursor {
  import opened Common
  import opened FtsSpec

  datatype Level = Level(head: Entry, rest: seq<Entry>)

  type Levels = seq<Level>

  function Anc(z: Levels, k: nat): (ids: seq<Id>)
    requires k <= |z|
    ensures |ids| == k
  {
    seq(k, i requires 0 <= i < k => z[i].head.id)
  }

  ghost predicate LevelOk(env: Env, z: Levels, k: nat)
    requires k < |z|
  {
    && PathOk(z[k].head.path)
    && Fresh(env, z[k].head, Anc(z, k))
    && !z[k].head.info.Init?
    && if k == 0 then RootsOk(env, z[0].rest)
       else
         && NameOk(z[k].head.name)
         && z[k].head.path == Base(z[k - 1].head.path) + z[k].head.name
         && ChildrenOk(env, z[k].rest, z[k - 1].head.path, Anc(z, k))
  }

  ghost predicate Ok(env: Env, z: Levels) {
    && EnvOk(env)
    && (forall k | 0 <= k < |z| :: LevelOk(env, z, k))
    && (forall k | 0 <= k < |z| - 1 :: z[k].head.info.D?)
  }

  function Cur(z: Levels): Entry
    requires |z| > 0
  {
    z[|z| - 1].head
  }

  function SetCur(z: Levels, e: Entry): Levels
    requires |z| > 0
  {
    z[|z| - 1 := z[|z| - 1].(head := e)]
  }

  /** A position, and the string that the path buffer spells there. */
  datatype Step = Step(z: Levels, shown: string)

  function Stand(z: Levels): Step
    requires |z| > 0
  {
    Step(z, Cur(z).path)
  }

  /** Reading the directory on top of `z`. */
  ghost function Descend(env: Env, z: Levels): Step
    requires EnvOk(env) && |z| > 0
  {
    var e := Cur(z);
    match env.list(e.path)
    case None => Stand(SetCur(z, e.(info := DNR, errno := env.dnrErrno)))
    case Some(ds) =>
      var kids := Children(env, e, Anc(z, |z|), ds);
      if kids == [] then Step(SetCur(z, e.(info := DP)), ShownEmpty(e.path))
      else Stand(z + [Level(kids[0], kids[1..])])
  }

  /** Leaving the finished node on top of `z`. */
  ghost function Advance(env: Env, z: Levels): Step
    requires |z| > 0
  {
    var top := |z| - 1;
    var rest := z[top].rest;
    if rest != [] then
      Stand(z[top := Level(if top == 0 then Loaded(env, rest[0]) else rest[0], rest[1..])])
    else if top == 0 then Step([], "")
    else Stand(SetCur(z[..top], Cur(z[..top]).(info := DP)))
  }

  predicate Crosses(env: Env, z: Levels)
    requires |z| > 0
  {
    env.xdev && Cur(z).id.dev != z[0].head.id.dev
  }

  /** One call of `fts_read` with the instruction `skip` on the current node. */
  ghost function Next(env: Env, z: Levels, skip: bool): Step
    requires EnvOk(env) && |z| > 0
  {
    if !Cur(z).info.D? then Advance(env, z)
    else if skip || Crosses(env, z) then Stand(SetCur(z, Cur(z).(info := DP)))
    else Descend(env, z)
  }

  // ----- the visits a position stands for -----

  lemma {:induction false} PrefixOk(env: Env, z: Levels)
    requires Ok(env, z) && |z| > 1
    ensures Ok(env, z[..|z| - 1])
  {
    var y := z[..|z| - 1];
    forall k | 0 <= k < |y| ensures LevelOk(env, y, k) {
      assert Anc(y, k) == Anc(z, k);
      assert LevelOk(env, z, k);
    }
  }

  lemma {:induction false} RestOk(env: Env, z: Levels)
    requires Ok(env, z) && |z| > 0
    ensures |z| == 1 ==> RootsOk(env, z[0].rest)
    ensures |z| > 1 ==> ChildrenOk(env, z[|z| - 1].rest, z[|z| - 2].head.path, Anc(z, |z| - 1))
    ensures |z| > 1 ==> Walkable(env, z[|z| - 1].rest, Anc(z, |z| - 1))
  {
    assert LevelOk(env, z, |z| - 1);
    if |z| > 1 {
      assert LevelOk(env, z, |z| - 2);
      ChildPathsOk(env, z[|z| - 1].rest, z[|z| - 2].head.path, Anc(z, |z| - 1));
    }
  }

  /** The walk of the siblings after the current node. */
  ghost function SiblingsLeft(env: Env, z: Levels): seq<Visit>
    requires Ok(env, z) && |z| > 0
  {
    RestOk(env, z);
    if |z| == 1 then WalkRoots(env, z[0].rest)
    else WalkList(env, z[|z| - 1].rest, Anc(z, |z| - 1), |z| - 1, z[0].head.id.dev)
  }

  ghost function After(env: Env, z: Levels): seq<Visit>
    requires Ok(env, z) && |z| > 0
    decreases |z|
  {
    if |z| == 1 then SiblingsLeft(env, z)
    else
      PrefixOk(env, z);
      SiblingsLeft(env, z) + ([Post(z[|z| - 2].head, |z| - 2)] + After(env, z[..|z| - 1]))
  }

  ghost function Below(env: Env, z: Levels): seq<Visit>
    requires Ok(env, z) && |z| > 0
  {
    assert LevelOk(env, z, |z| - 1);
    WalkRest(env, Cur(z), Anc(z, |z| - 1), |z| - 1, z[0].head.id.dev)
  }

  lemma {:induction false} BelowDirectory(env: Env, z: Levels)
    requires Ok(env, z) && |z| > 0 && Cur(z).info.D?
    ensures PathOk(Cur(z).path) && Fresh(env, Cur(z), Anc(z, |z| - 1))
    ensures Below(env, z) == WalkBelow(env, Cur(z), Anc(z, |z| - 1), |z| - 1, z[0].head.id.dev)
  {
    assert LevelOk(env, z, |z| - 1);
  }

  /** Everything that further reads return. */
  ghost function Remaining(env: Env, z: Levels): seq<Visit>
    requires Ok(env, z)
  {
    if z == [] then [] else Below(env, z) + After(env, z)
  }

  /** The skip instruction that the caller gives on the current node. */
  ghost predicate Skips(env: Env, z: Levels)
    requires |z| > 0
  {
    env.skip(See(Visit(Cur(z).path, Cur(z), |z| - 1)))
  }

  // ----- the steps keep a position well formed -----

  /** `e` is the current node of `z` after its last visit. */
  predicate Done(z: Levels, e: Entry)
    requires |z| > 0
  {
    && e.path == Cur(z).path && e.name == Cur(z).name && e.id == Cur(z).id
    && !e.info.D? && !e.info.Init?
  }

  lemma {:induction false} SetCurOk(env: Env, z: Levels, e: Entry)
    requires Ok(env, z) && |z| > 0 && Done(z, e)
    ensures Ok(env, SetCur(z, e))
  {
    var y := SetCur(z, e);
    forall k | 0 <= k < |y| ensures LevelOk(env, y, k) {
      assert Anc(y, k) == Anc(z, k);
      assert LevelOk(env, z, k);
    }
  }

  lemma {:induction false} PushOk(env: Env, z: Levels, kids: seq<Entry>)
    requires Ok(env, z) && |z| > 0 && kids != []
    requires Cur(z).info.D? && ChildrenOk(env, kids, Cur(z).path, Anc(z, |z|))
    ensures Ok(env, z + [Level(kids[0], kids[1..])])
  {
    var y := z + [Level(kids[0], kids[1..])];
    assert LevelOk(env, z, |z| - 1);
    ChildPathsOk(env, kids, Cur(z).path, Anc(z, |z|));
    assert ChildOk(env, kids[0], Cur(z).path, Anc(z, |z|));
    forall i | 0 <= i < |kids[1..]| ensures ChildOk(env, kids[1..][i], Cur(z).path, Anc(z, |z|)) {
      assert ChildOk(env, kids[i + 1], Cur(z).path, Anc(z, |z|));
    }
    forall k | 0 <= k < |y| ensures LevelOk(env, y, k) {
      assert Anc(y, k) == Anc(z, k);
      if k < |z| { assert LevelOk(env, z, k); }
    }
  }

  lemma {:induction false} SiblingOk(env: Env, z: Levels)
    requires Ok(env, z) && |z| > 1 && z[|z| - 1].rest != []
    ensures Ok(env, Advance(env, z).z)
  {
    var top := |z| - 1;
    var y := Advance(env, z).z;
    var rest := z[top].rest;
    RestOk(env, z);
    assert ChildOk(env, rest[0], z[top - 1].head.path, Anc(z, top));
    forall i | 0 <= i < |rest[1..]| ensures ChildOk(env, rest[1..][i], z[top - 1].head.path, Anc(z, top)) {
      assert ChildOk(env, rest[i + 1], z[top - 1].head.path, Anc(z, top));
    }
    forall k | 0 <= k < |y| ensures LevelOk(env, y, k) {
      assert Anc(y, k) == Anc(z, k);
      assert LevelOk(env, z, k);
    }
  }

  lemma {:induction false} RootStepOk(env: Env, es: seq<Entry>)
    requires EnvOk(env) && RootsOk(env, es) && es != []
    ensures Ok(env, [Level(Loaded(env, es[0]), es[1..])])
  {
    var z := [Level(Loaded(env, es[0]), es[1..])];
    assert RootOk(env, es[0]);
    assert Anc(z, 0) == [];
    assert LevelOk(env, z, 0);
  }

  lemma {:induction false} DescendOk(env: Env, z: Levels)
    requires Ok(env, z) && |z| > 0 && Cur(z).info.D?
    ensures Ok(env, Descend(env, z).z)
  {
    var e := Cur(z);
    if env.list(e.path).None? {
      SetCurOk(env, z, e.(info := DNR, errno := env.dnrErrno));
    } else {
      ChildrenAreOk(env, e, Anc(z, |z|));
      var kids := Children(env, e, Anc(z, |z|), env.list(e.path).value);
      if kids == [] { SetCurOk(env, z, e.(info := DP)); } else { PushOk(env, z, kids); }
    }
  }

  lemma {:induction false} AdvanceOk(env: Env, z: Levels)
    requires Ok(env, z) && |z| > 0
    ensures Ok(env, Advance(env, z).z)
  {
    var top := |z| - 1;
    if z[top].rest != [] {
      if top == 0 {
        RestOk(env, z);
        RootStepOk(env, z[0].rest);
        assert Advance(env, z).z == [Level(Loaded(env, z[0].rest[0]), z[0].rest[1..])];
      } else {
        SiblingOk(env, z);
      }
    } else if top > 0 {
      PrefixOk(env, z);
      SetCurOk(env, z[..top], Cur(z[..top]).(info := DP));
    }
  }

  /** Every read keeps the position well formed: in particular each directory on the stack
      differs in identity from the directories above it. */
  lemma {:induction false} NextOk(env: Env, z: Levels, skip: bool)
    requires Ok(env, z) && |z| > 0
    ensures Ok(env, Next(env, z, skip).z)
  {
    if !Cur(z).info.D? {
      AdvanceOk(env, z);
    } else if skip || Crosses(env, z) {
      SetCurOk(env, z, Cur(z).(info := DP));
    } else {
      DescendOk(env, z);
    }
  }

  // ----- a step returns the next visit of the walk -----

  /** The step `s` from `z` shows the first of the visits that remain and leaves the others. */
  ghost predicate Follows(env: Env, z: Levels, s: Step)
    requires Ok(env, z)
  {
    && Ok(env, s.z)
    && if s.z == [] then Remaining(env, z) == []
       else Remaining(env, z) == [Visit(s.shown, Cur(s.z), |s.z| - 1)] + Remaining(env, s.z)
  }

  lemma {:induction false} AfterSetCur(env: Env, z: Levels, e: Entry)
    requires Ok(env, z) && |z| > 0 && Done(z, e)
    ensures Ok(env, SetCur(z, e)) && Remaining(env, SetCur(z, e)) == After(env, z)
  {
    SetCurOk(env, z, e);
    var y := SetCur(z, e);
    var top := |z| - 1;
    assert y[..top] == z[..top];
    assert Anc(y, top) == Anc(z, top);
    assert After(env, y) == After(env, z);
    assert Below(env, y) == [];
  }

  lemma {:induction false} FollowsDone(env: Env, z: Levels, e: Entry, shown: string)
    requires Ok(env, z) && |z| > 0 && Done(z, e)
    requires Below(env, z) == [Visit(shown, e, |z| - 1)]
    ensures Follows(env, z, Step(SetCur(z, e), shown))
  {
    AfterSetCur(env, z, e);
  }

  lemma {:induction false} FollowsSkip(env: Env, z: Levels)
    requires Ok(env, z) && |z| > 0 && Cur(z).info.D? && (Skips(env, z) || Crosses(env, z))
    ensures Follows(env, z, Stand(SetCur(z, Cur(z).(info := DP))))
  {
    BelowDirectory(env, z);
    assert Below(env, z) == [Post(Cur(z), |z| - 1)];
    FollowsDone(env, z, Cur(z).(info := DP), Cur(z).path);
  }

  lemma {:induction false} FollowsUnreadable(env: Env, z: Levels)
    requires Ok(env, z) && |z| > 0 && Cur(z).info.D? && !Skips(env, z) && !Crosses(env, z)
    requires env.list(Cur(z).path).None?
    ensures Follows(env, z, Descend(env, z))
  {
    var gone := Cur(z).(info := DNR, errno := env.dnrErrno);
    BelowDirectory(env, z);
    assert Below(env, z) == [Visit(Cur(z).path, gone, |z| - 1)];
    FollowsDone(env, z, gone, Cur(z).path);
  }

  lemma {:induction false} FollowsEmpty(env: Env, z: Levels)
    requires Ok(env, z) && |z| > 0 && Cur(z).info.D? && !Skips(env, z) && !Crosses(env, z)
    requires env.list(Cur(z).path).Some? && Children(env, Cur(z), Anc(z, |z|), env.list(Cur(z).path).value) == []
    ensures Follows(env, z, Descend(env, z))
  {
    var e := Cur(z);
    BelowDirectory(env, z);
    assert Anc(z, |z|) == Anc(z, |z| - 1) + [e.id];
    assert Below(env, z) == [Visit(ShownEmpty(e.path), e.(info := DP), |z| - 1)];
    FollowsDone(env, z, e.(info := DP), ShownEmpty(e.path));
  }

  lemma {:induction false} Regroup(v: Visit, a: seq<Visit>, b: seq<Visit>, c: seq<Visit>)
    ensures (([v] + a) + b) + c == [v] + (a + (b + c))
  {
  }

  lemma {:induction false} PushAfter(env: Env, z: Levels, kids: seq<Entry>)
    requires Ok(env, z) && |z| > 0 && Cur(z).info.D? && kids != []
    requires ChildrenOk(env, kids, Cur(z).path, Anc(z, |z|)) && Walkable(env, kids, Anc(z, |z|))
    ensures var y := z + [Level(kids[0], kids[1..])];
            && Ok(env, y)
            && Below(env, y) == WalkRest(env, kids[0], Anc(z, |z|), |z|, z[0].head.id.dev)
            && After(env, y) == WalkList(env, kids[1..], Anc(z, |z|), |z|, z[0].head.id.dev)
                              + ([Post(Cur(z), |z| - 1)] + After(env, z))
  {
    PushOk(env, z, kids);
    var y := z + [Level(kids[0], kids[1..])];
    assert Anc(y, |z|) == Anc(z, |z|);
    assert y[..|z|] == z;
  }

  lemma {:induction false} PushFollows(env: Env, z: Levels, kids: seq<Entry>)
    requires Ok(env, z) && |z| > 0 && Cur(z).info.D? && kids != []
    requires ChildrenOk(env, kids, Cur(z).path, Anc(z, |z|)) && Walkable(env, kids, Anc(z, |z|))
    ensures var y := z + [Level(kids[0], kids[1..])];
            && Ok(env, y)
            && (WalkList(env, kids, Anc(z, |z|), |z|, z[0].head.id.dev) + [Post(Cur(z), |z| - 1)]) + After(env, z)
            == [Visit(kids[0].path, kids[0], |z|)] + Remaining(env, y)
  {
    var first := Visit(kids[0].path, kids[0], |z|);
    var rest := WalkRest(env, kids[0], Anc(z, |z|), |z|, z[0].head.id.dev);
    var siblings := WalkList(env, kids[1..], Anc(z, |z|), |z|, z[0].head.id.dev);
    var post := [Post(Cur(z), |z| - 1)];
    assert WalkList(env, kids, Anc(z, |z|), |z|, z[0].head.id.dev) == ([first] + rest) + siblings;
    Regroup(first, rest, siblings, post + After(env, z));
    PushAfter(env, z, kids);
  }

  lemma {:induction false} FollowsKids(env: Env, z: Levels, kids: seq<Entry>)
    requires Ok(env, z) && |z| > 0 && Cur(z).info.D? && !Skips(env, z) && !Crosses(env, z)
    requires env.list(Cur(z).path).Some? && kids == Children(env, Cur(z), Anc(z, |z|), env.list(Cur(z).path).value)
    requires kids != []
    ensures Follows(env, z, Descend(env, z))
  {
    BelowDirectory(env, z);
    assert Anc(z, |z|) == Anc(z, |z| - 1) + [Cur(z).id];
    ChildrenAreOk(env, Cur(z), Anc(z, |z|));
    ChildPathsOk(env, kids, Cur(z).path, Anc(z, |z|));
    PushFollows(env, z, kids);
  }

  lemma {:induction false} FollowsRoot(env: Env, z: Levels)
    requires Ok(env, z) && |z| == 1 && !Cur(z).info.D? && z[0].rest != []
    ensures Follows(env, z, Advance(env, z))
  {
    AdvanceOk(env, z);
    var es := z[0].rest;
    RestOk(env, z);
    FirstStep(env, es);
    assert Advance(env, z).z == [Level(Loaded(env, es[0]), es[1..])];
    assert Below(env, z) == [];
    assert Remaining(env, z) == WalkRoots(env, es);
  }

  lemma {:induction false} FollowsSibling(env: Env, z: Levels)
    requires Ok(env, z) && |z| > 1 && !Cur(z).info.D? && z[|z| - 1].rest != []
    ensures Follows(env, z, Advance(env, z))
  {
    var top := |z| - 1;
    var y := Advance(env, z).z;
    SiblingOk(env, z);
    RestOk(env, z);
    assert y[..top] == z[..top];
    assert Anc(y, top) == Anc(z, top);
    PrefixOk(env, z);
    var e := Cur(y);
    var tail := [Post(z[top - 1].head, top - 1)] + After(env, z[..top]);
    assert Below(env, z) == [];
    assert Remaining(env, z) == SiblingsLeft(env, z) + tail;
    assert SiblingsLeft(env, z)
        == WalkEntry(env, e, Anc(z, top), top, z[0].head.id.dev) + SiblingsLeft(env, y);
    assert SiblingsLeft(env, z) == ([Visit(e.path, e, top)] + Below(env, y)) + SiblingsLeft(env, y);
    Regroup(Visit(e.path, e, top), Below(env, y), SiblingsLeft(env, y), tail);
  }

  lemma {:induction false} FollowsUp(env: Env, z: Levels)
    requires Ok(env, z) && |z| > 0 && !Cur(z).info.D? && z[|z| - 1].rest == []
    ensures Follows(env, z, Advance(env, z))
  {
    var top := |z| - 1;
    assert SiblingsLeft(env, z) == [];
    assert Below(env, z) == [];
    if top > 0 {
      PrefixOk(env, z);
      AfterSetCur(env, z[..top], Cur(z[..top]).(info := DP));
    }
  }

  /** A read returns the first visit of what remains, and leaves the rest of it; it returns
      nothing exactly when nothing remains. */
  lemma {:induction false} StepFollowsWalk(env: Env, z: Levels)
    requires Ok(env, z) && |z| > 0
    ensures Follows(env, z, Next(env, z, Skips(env, z)))
  {
    if Cur(z).info.D? {
      if Skips(env, z) || Crosses(env, z) {
        FollowsSkip(env, z);
      } else if env.list(Cur(z).path).None? {
        FollowsUnreadable(env, z);
      } else {
        var kids := Children(env, Cur(z), Anc(z, |z|), env.list(Cur(z).path).value);
        if kids == [] { FollowsEmpty(env, z); } else { FollowsKids(env, z, kids); }
      }
    } else if z[|z| - 1].rest == [] {
      FollowsUp(env, z);
    } else if |z| == 1 {
      FollowsRoot(env, z);
    } else {
      FollowsSibling(env, z);
    }
  }

  /** The first read after `fts_open` starts the walk of the roots. */
  lemma {:induction false} FirstStep(env: Env, es: seq<Entry>)
    requires EnvOk(env) && RootsOk(env, es) && es != []
    ensures var z := [Level(Loaded(env, es[0]), es[1..])];
            && Ok(env, z)
            && WalkRoots(env, es) == [Visit(es[0].path, Cur(z), 0)] + Remaining(env, z)
  {
    RootStepOk(env, es);
    var z := [Level(Loaded(env, es[0]), es[1..])];
    assert Anc(z, 0) == [];
    Regroup(Visit(es[0].path, Cur(z), 0), Below(env, z), WalkRoots(env, es[1..]), []);
  }

  // ----- cycles are cut -----

  lemma {:induction false} DistinctAncestors(env: Env, z: Levels, k: nat)
    requires Ok(env, z) && k < |z|
    ensures IdSet(Anc(z, k)) <= env.ids && |IdSet(Anc(z, k))| == k
  {
    if k > 0 {
      DistinctAncestors(env, z, k - 1);
      assert LevelOk(env, z, k - 1);
      assert Anc(z, k) == Anc(z, k - 1) + [z[k - 1].head.id];
      assert IdSet(Anc(z, k)) == IdSet(Anc(z, k - 1)) + {z[k - 1].head.id};
    } else {
      assert IdSet(Anc(z, 0)) == {};
    }
  }

  lemma {:induction false} SubsetSize<T>(a: set<T>, b: set<T>)
    requires a <= b
    ensures |a| <= |b|
  {
    assert b == a + (b - a);
  }

  /** The walk never stands deeper than there are directories, whatever cycles the hierarchy
      has, and no directory on the stack is its own ancestor. */
  lemma {:induction false} DepthBound(env: Env, z: Levels)
    requires Ok(env, z) && |z| > 0
    ensures |z| - 1 <= |env.ids|
    ensures forall i, j | 0 <= i < j < |z| - 1 :: z[i].head.id != z[j].head.id
  {
    DistinctAncestors(env, z, |z| - 1);
    SubsetSize(IdSet(Anc(z, |z| - 1)), env.ids);
    forall i, j | 0 <= i < j < |z| - 1 ensures z[i].head.id != z[j].head.id {
      assert LevelOk(env, z, j);
      assert Anc(z, j)[i] == z[i].head.id;
    }
  }
}
