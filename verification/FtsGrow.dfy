/**
 * What `fts_build` makes of a directory when the path buffer has to grow on the way.  The node whose
 * name makes `realloc` move the buffer is stat'ed by what the freed block then holds.
 */
module FtsGrow {
  import opened Common
  import opened FtsSpec
  import opened FtsCursor
  import opened FtsPath

  /** `moves` says whether `realloc` to a size moves the block; `stale`, what the string in the
      block with a number reads as once the block is freed. */
  datatype Realloc = Realloc(moves: nat -> bool, stale: nat -> string)

  /** The capacity of the path buffer, and the number of the block it is in. */
  datatype Buffer = Buffer(cap: nat, block: nat)

  function Need(base: string, d: Dirent): nat {
    |base| + |d.name|
  }

  /** The capacity once a path of `need` characters fits. */
  function Roomy(cap: nat, need: nat): (r: nat)
    ensures r >= cap && need < r && (IsPow2(cap) ==> IsPow2(r))
  {
    if need < cap then cap else Pow2Ceil(need + 1)
  }

  predicate Moves(mv: Realloc, cap: nat, need: nat) {
    need >= cap && mv.moves(Pow2Ceil(need + 1))
  }

  function Grown(mv: Realloc, b: Buffer, need: nat): Buffer {
    Buffer(Roomy(b.cap, need), if Moves(mv, b.cap, need) then b.block + 1 else b.block)
  }

  function EntryBuilt(env: Env, mv: Realloc, base: string, anc: seq<Id>, nlinks: int, b: Buffer, d: Dirent): Entry {
    if Moves(mv, b.cap, Need(base, d)) && !SkipsStat(env, nlinks, d.dtype)
    then Statted(env, mv.stale(b.block), d.name, anc, false).(path := base + d.name)
    else EntryOf(env, base, anc, nlinks, d)
  }

  /** The nodes that the code makes for a directory's entries, in directory order. */
  function Built(env: Env, mv: Realloc, base: string, anc: seq<Id>, nlinks: int, b: Buffer, ds: seq<Dirent>): seq<Entry>
    decreases |ds|
  {
    if ds == [] then []
    else if Hidden(env, ds[0]) then Built(env, mv, base, anc, nlinks, b, ds[1..])
    else
      var e := EntryBuilt(env, mv, base, anc, nlinks, b, ds[0]);
      [e] + Built(env, mv, base, anc, LinksAfter(env, nlinks, ds[0].dtype, e.info), Grown(mv, b, Need(base, ds[0])), ds[1..])
  }

  /** The buffer afterwards. */
  function Room(env: Env, mv: Realloc, base: string, b: Buffer, ds: seq<Dirent>): (r: Buffer)
    ensures r.cap >= b.cap && (IsPow2(b.cap) ==> IsPow2(r.cap))
    decreases |ds|
  {
    if ds == [] then b
    else Room(env, mv, base, if Hidden(env, ds[0]) then b else Grown(mv, b, Need(base, ds[0])), ds[1..])
  }

  // ----- when the nodes are right -----

  predicate IsDirAt(env: Env, path: string) {
    var st := if env.logical then env.stat(path) else env.lstat(path);
    st.Found? && st.mode.ModeDir?
  }

  /** The links left after an entry that was stat'ed rightly. */
  function LinksLeft(env: Env, base: string, nlinks: int, d: Dirent): int {
    if !SkipsStat(env, nlinks, d.dtype) && nlinks > 0 && IsDirAt(env, base + d.name) then nlinks - 1 else nlinks
  }

  /** No entry both makes the buffer move and is stat'ed: a condition on the lengths of the names,
      on `d_type` and the link count, and on the sizes at which `realloc` moves. */
  predicate Sheltered(env: Env, mv: Realloc, base: string, nlinks: int, cap: nat, ds: seq<Dirent>)
    decreases |ds|
  {
    if ds == [] then true
    else if Hidden(env, ds[0]) then Sheltered(env, mv, base, nlinks, cap, ds[1..])
    else
      && (Moves(mv, cap, Need(base, ds[0])) ==> SkipsStat(env, nlinks, ds[0].dtype))
      && Sheltered(env, mv, base, LinksLeft(env, base, nlinks, ds[0]), Roomy(cap, Need(base, ds[0])), ds[1..])
  }

  lemma {:induction false} LinksLeftIs(env: Env, base: string, anc: seq<Id>, nlinks: int, d: Dirent)
    ensures LinksAfter(env, nlinks, d.dtype, EntryOf(env, base, anc, nlinks, d).info) == LinksLeft(env, base, nlinks, d)
  {
  }

  lemma {:induction false} ShelteredIsScan(env: Env, mv: Realloc, base: string, anc: seq<Id>, nlinks: int, b: Buffer, ds: seq<Dirent>)
    requires Sheltered(env, mv, base, nlinks, b.cap, ds)
    ensures Built(env, mv, base, anc, nlinks, b, ds) == Scan(env, base, anc, nlinks, ds)
    decreases |ds|
  {
    hide EntryOf, Statted, LinksLeft, LinksAfter, Hidden, Roomy;
    if ds != [] {
      if Hidden(env, ds[0]) {
        ShelteredIsScan(env, mv, base, anc, nlinks, b, ds[1..]);
      } else {
        LinksLeftIs(env, base, anc, nlinks, ds[0]);
        ShelteredIsScan(env, mv, base, anc, LinksLeft(env, base, nlinks, ds[0]), Grown(mv, b, Need(base, ds[0])), ds[1..]);
      }
    }
  }

  // ----- the step of the code -----

  /** Reading the directory on top of `z`. */
  ghost function DescendOn(env: Env, mv: Realloc, z: Levels, b: Buffer): Step
    requires EnvOk(env) && |z| > 0
  {
    var e := Cur(z);
    match env.list(e.path)
    case None => Stand(SetCur(z, e.(info := DNR, errno := env.dnrErrno)))
    case Some(ds) =>
      var kids := Arrange(env, Built(env, mv, Base(e.path), Anc(z, |z|), LinksOf(env, e), b, ds));
      if kids == [] then Step(SetCur(z, e.(info := DP)), ShownEmpty(e.path))
      else Stand(z + [Level(kids[0], kids[1..])])
  }

  /** Whether a read with the instruction `skip` reads the directory on top of `z`. */
  predicate Enters(env: Env, z: Levels, skip: bool)
    requires |z| > 0
  {
    Cur(z).info.D? && !skip && !Crosses(env, z)
  }

  /** One call of `fts_read`, exactly. */
  ghost function NextOn(env: Env, mv: Realloc, z: Levels, skip: bool, b: Buffer): Step
    requires EnvOk(env) && |z| > 0
  {
    if Enters(env, z, skip) then DescendOn(env, mv, z, b) else Next(env, z, skip)
  }

  function RoomIn(env: Env, mv: Realloc, path: string, b: Buffer): (r: Buffer)
    ensures r.cap >= b.cap && (IsPow2(b.cap) ==> IsPow2(r.cap))
  {
    match env.list(path)
    case None => b
    case Some(ds) => Room(env, mv, Base(path), b, ds)
  }

  function RoomAfter(env: Env, mv: Realloc, z: Levels, skip: bool, b: Buffer): Buffer
    requires |z| > 0
  {
    if Enters(env, z, skip) then RoomIn(env, mv, Cur(z).path, b) else b
  }

  predicate ShelteredIn(env: Env, mv: Realloc, e: Entry, cap: nat) {
    env.list(e.path).Some? ==> Sheltered(env, mv, Base(e.path), LinksOf(env, e), cap, env.list(e.path).value)
  }

  lemma {:induction false} NextOnIsNext(env: Env, mv: Realloc, z: Levels, skip: bool, b: Buffer)
    requires EnvOk(env) && |z| > 0 && (Enters(env, z, skip) ==> ShelteredIn(env, mv, Cur(z), b.cap))
    ensures NextOn(env, mv, z, skip, b) == Next(env, z, skip)
  {
    hide Sheltered, Built, Scan, Arrange, Advance, EnvOk;
    if Enters(env, z, skip) && env.list(Cur(z).path).Some? {
      ShelteredIsScan(env, mv, Base(Cur(z).path), Anc(z, |z|), LinksOf(env, Cur(z)), b, env.list(Cur(z).path).value);
    }
  }

  /** Whatever the stat calls say, the nodes are those of the visible names. */
  lemma {:induction false} BuiltOk(env: Env, mv: Realloc, parent: string, anc: seq<Id>, nlinks: int, b: Buffer, ds: seq<Dirent>)
    requires IdsKnown(env) && forall i | 0 <= i < |ds| :: NameOk(ds[i].name)
    ensures ChildrenOk(env, Built(env, mv, Base(parent), anc, nlinks, b, ds), parent, anc)
    decreases |ds|
  {
    hide EntryOf, Statted, LinksAfter, Hidden, Grown, SkipsStat, IdsKnown, ChildOk, NameOk;
    if ds != [] {
      var rest := ds[1..];
      if Hidden(env, ds[0]) {
        BuiltOk(env, mv, parent, anc, nlinks, b, rest);
      } else {
        EntryBuiltOk(env, mv, parent, anc, nlinks, b, ds[0]);
        var e := EntryBuilt(env, mv, Base(parent), anc, nlinks, b, ds[0]);
        BuiltOk(env, mv, parent, anc, LinksAfter(env, nlinks, ds[0].dtype, e.info), Grown(mv, b, Need(Base(parent), ds[0])), rest);
      }
    }
  }

  lemma {:induction false} EntryBuiltOk(env: Env, mv: Realloc, parent: string, anc: seq<Id>, nlinks: int, b: Buffer, d: Dirent)
    requires IdsKnown(env) && NameOk(d.name)
    ensures ChildOk(env, EntryBuilt(env, mv, Base(parent), anc, nlinks, b, d), parent, anc)
  {
    hide NameOk;
    EntryOfOk(env, parent, anc, nlinks, d);
    assert IdsAt(env, mv.stale(b.block));
  }

  // ----- whole walks -----

  /** Whether the visit `v` of a walk on the device `dev` is followed by reading its directory. */
  predicate IsRead(env: Env, v: Visit, dev: int) {
    v.e.info.D? && !env.skip(See(v)) && !(env.xdev && v.e.id.dev != dev)
  }

  function DevAt(v: Visit, dev: int): int {
    if v.level == 0 then v.e.id.dev else dev
  }

  /** Along the visits `vs`, started with a buffer of `cap` characters on the device `dev`, every
      directory that is read is sheltered. */
  predicate Calm(env: Env, mv: Realloc, cap: nat, dev: int, vs: seq<Visit>)
    decreases |vs|
  {
    if vs == [] then true
    else
      var v := vs[0];
      var on := DevAt(v, dev);
      if IsRead(env, v, on) then
        ShelteredIn(env, mv, v.e, cap) && Calm(env, mv, RoomIn(env, mv, v.e.path, Buffer(cap, 0)).cap, on, vs[1..])
      else Calm(env, mv, cap, on, vs[1..])
  }

  /** For a buffer that is large enough for every name, or a `realloc` that never moves, every walk is calm. */
  ghost predicate Short(env: Env, cap: nat) {
    forall path: string :: ShortIn(env, path, cap)
  }

  predicate ShortIn(env: Env, path: string, cap: nat) {
    env.list(path).Some? ==> forall i | 0 <= i < |env.list(path).value| :: Need(Base(path), env.list(path).value[i]) < cap
  }

  ghost predicate InPlace(mv: Realloc) {
    forall n: nat :: !mv.moves(n)
  }

  lemma {:induction false} ShortShelters(env: Env, mv: Realloc, base: string, nlinks: int, b: Buffer, ds: seq<Dirent>)
    requires InPlace(mv) || forall i | 0 <= i < |ds| :: Need(base, ds[i]) < b.cap
    ensures Sheltered(env, mv, base, nlinks, b.cap, ds)
    ensures (forall i | 0 <= i < |ds| :: Need(base, ds[i]) < b.cap) ==> Room(env, mv, base, b, ds) == b
    decreases |ds|
  {
    hide SkipsStat, LinksLeft, Hidden;
    if ds != [] {
      if Hidden(env, ds[0]) {
        ShortShelters(env, mv, base, nlinks, b, ds[1..]);
      } else {
        ShortShelters(env, mv, base, LinksLeft(env, base, nlinks, ds[0]), Grown(mv, b, Need(base, ds[0])), ds[1..]);
      }
    }
  }

  lemma {:induction false} ShortIsCalm(env: Env, mv: Realloc, cap: nat, dev: int, vs: seq<Visit>)
    requires InPlace(mv) || Short(env, cap)
    ensures Calm(env, mv, cap, dev, vs)
    decreases |vs|
  {
    hide Sheltered, IsRead, Room, Short, InPlace;
    if vs != [] {
      var v, b := vs[0], Buffer(cap, 0);
      var on := DevAt(v, dev);
      if env.list(v.e.path).Some? {
        if Short(env, cap) {
          ShortAt(env, v.e.path, cap);
        }
        ShortShelters(env, mv, Base(v.e.path), LinksOf(env, v.e), b, env.list(v.e.path).value);
      }
      ShortIsCalm(env, mv, if IsRead(env, v, on) then RoomIn(env, mv, v.e.path, b).cap else cap, on, vs[1..]);
    }
  }

  lemma {:induction false} ShortAt(env: Env, path: string, cap: nat)
    requires Short(env, cap)
    ensures ShortIn(env, path, cap)
  {
  }

  /** The walk from a position on is calm. */
  ghost predicate CalmAt(env: Env, mv: Realloc, cap: nat, z: Levels, shown: string)
    requires Ok(env, z) && |z| > 0
  {
    Calm(env, mv, cap, z[0].head.id.dev, [Visit(shown, Cur(z), |z| - 1)] + Remaining(env, z))
  }

  lemma {:induction false} SameDevice(env: Env, z: Levels, skip: bool)
    requires EnvOk(env) && |z| > 0
    ensures var s := Next(env, z, skip); |s.z| > 1 ==> s.z[0].head.id == z[0].head.id
  {
  }

  lemma {:induction false} RoomCap(env: Env, mv: Realloc, base: string, b: Buffer, c: Buffer, ds: seq<Dirent>)
    requires b.cap == c.cap
    ensures Room(env, mv, base, b, ds).cap == Room(env, mv, base, c, ds).cap
    decreases |ds|
  {
    hide Hidden, Roomy, Moves;
    if ds != [] {
      if Hidden(env, ds[0]) {
        RoomCap(env, mv, base, b, c, ds[1..]);
      } else {
        RoomCap(env, mv, base, Grown(mv, b, Need(base, ds[0])), Grown(mv, c, Need(base, ds[0])), ds[1..]);
      }
    }
  }

  /** What it means for a position that the walk from it is calm: the next directory is sheltered,
      and the walk behind the next step is calm. */
  lemma {:induction false} CalmUnfold(env: Env, mv: Realloc, z: Levels, shown: string, b: Buffer)
    requires Ok(env, z) && |z| > 0 && (Cur(z).info.D? ==> shown == Cur(z).path)
    ensures EnvOk(env) && Ok(env, Next(env, z, Skips(env, z)).z)
    ensures var s := Next(env, z, Skips(env, z));
            CalmAt(env, mv, b.cap, z, shown) <==>
              && (Enters(env, z, Skips(env, z)) ==> ShelteredIn(env, mv, Cur(z), b.cap))
              && (s.z != [] ==> CalmAt(env, mv, RoomAfter(env, mv, z, Skips(env, z), b).cap, s.z, s.shown))
  {
    hide Ok, Next, Remaining, ShelteredIn, See, Room;
    OkEnv(env, z);
    var v := Visit(shown, Cur(z), |z| - 1);
    var s := Next(env, z, Skips(env, z));
    StepFollowsWalk(env, z);
    NextOk(env, z, Skips(env, z));
    SameDevice(env, z, Skips(env, z));
    assert ([v] + Remaining(env, z))[1..] == Remaining(env, z);
    assert DevAt(v, z[0].head.id.dev) == z[0].head.id.dev;
    assert IsRead(env, v, z[0].head.id.dev) <==> Enters(env, z, Skips(env, z));
    if env.list(Cur(z).path).Some? {
      RoomCap(env, mv, Base(Cur(z).path), b, Buffer(b.cap, 0), env.list(Cur(z).path).value);
    }
    if s.z == [] {
      CalmNone(env, mv, RoomAfter(env, mv, z, Skips(env, z), b).cap, z[0].head.id.dev, Remaining(env, z));
    } else {
      FollowsIs(env, z, s);
      if |s.z| == 1 {
        AtRoot(env, mv, RoomAfter(env, mv, z, Skips(env, z), b).cap, z[0].head.id.dev, s.z[0].head.id.dev, Remaining(env, z));
      }
    }
  }

  lemma {:induction false} CalmNone(env: Env, mv: Realloc, cap: nat, dev: int, vs: seq<Visit>)
    requires vs == []
    ensures Calm(env, mv, cap, dev, vs)
  {
  }

  /** A root sets the device, whatever it was before. */
  lemma {:induction false} AtRoot(env: Env, mv: Realloc, cap: nat, x: int, y: int, vs: seq<Visit>)
    requires vs != [] && vs[0].level == 0
    ensures Calm(env, mv, cap, x, vs) <==> Calm(env, mv, cap, y, vs)
  {
  }

  lemma {:induction false} OkEnv(env: Env, z: Levels)
    requires Ok(env, z)
    ensures EnvOk(env)
  {
  }

  lemma {:induction false} FollowsIs(env: Env, z: Levels, s: Step)
    requires Ok(env, z) && |z| > 0 && Follows(env, z, s) && s.z != []
    ensures Ok(env, s.z) && Remaining(env, z) == [Visit(s.shown, Cur(s.z), |s.z| - 1)] + Remaining(env, s.z)
  {
  }
}
