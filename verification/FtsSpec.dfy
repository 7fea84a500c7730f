/**
 * The file hierarchy that fts walks, and the depth-first walk it promises.
 *
 * The file system is seen the way the C code sees it: through `stat`, `lstat` and
 * `readdir` on path strings.  Nothing ties one path to another, so the hierarchy may be
 * an arbitrary graph (symbolic links, hard-linked directories, cycles); the only
 * finiteness assumed is that the directories have finitely many (device, inode) pairs.
 */
module FtsSpec {
  import opened Common

  datatype Id = Id(dev: int, ino: int)

  datatype Mode = ModeDir | ModeLink | ModeRegular | ModeOther

  datatype Stat = Failed(errno: nat) | Found(mode: Mode, id: Id, nlink: int)

  datatype DType = DtUnknown | DtDir | DtOther

  datatype Dirent = Dirent(name: string, dtype: DType)

  datatype Info =
    | D | DC | Default | DNR | Dot | DP | Err | F | Init | NS | NSOK | SL | SLNone

  /** The value of one FTSENT; `errno` is its `fts_errno`. */
  datatype Entry = Entry(path: string, name: string, info: Info, id: Id, nlink: int, errno: nat)

  /** What the caller sees when `fts_read` returns: the string in the path buffer, the
      node and its level. */
  datatype Visit = Visit(shown: string, e: Entry, level: nat)

  /** What of it the caller can look at. */
  datatype Seen = Seen(path: string, pathlen: nat, name: string, info: Info, level: int, errno: nat)

  function See(v: Visit): Seen {
    Seen(v.shown, |v.e.path|, v.e.name, v.e.info, v.level, v.e.errno)
  }

  /** The hierarchy, the options of `fts_open`, and the caller's choice of the nodes on
      which to call `fts_set(FTS_SKIP)`. */
  datatype Env = Env(
    stat: string -> Stat,
    lstat: string -> Stat,
    list: string -> Option<seq<Dirent>>,
    ids: set<Id>,
    dnrErrno: nat,
    logical: bool,
    comfollow: bool,
    nostat: bool,
    physical: bool,
    seedot: bool,
    xdev: bool,
    unixPaths: bool,
    sorted: bool,
    compar: (Entry, Entry) -> int,
    qsort: seq<Entry> -> seq<nat>,
    skip: Seen -> bool)

  const NO_ID := Id(0, 0)

  predicate IsDot(name: string) {
    name == "." || name == ".."
  }

  ghost predicate IsPermutation(perm: seq<nat>, n: nat) {
    && |perm| == n
    && (forall i | 0 <= i < n :: perm[i] < n)
    && (forall i, j | 0 <= i < j < n :: perm[i] != perm[j])
    && (forall j | 0 <= j < n :: j in perm)
  }

  /** Names that `readdir` returns: non-empty, without NUL, not ending in '/' or ':'. */
  ghost predicate NameOk(name: string) {
    && |name| > 0
    && '\0' !in name
    && name[|name| - 1] != '/'
    && name[|name| - 1] != ':'
  }

  /** Paths the code can extend: "/" and paths ending in ":/" are excluded. */
  ghost predicate PathOk(path: string) {
    && |path| > 0
    && '\0' !in path
    && (path[|path| - 1] == '/' ==> |path| > 1 && path[|path| - 2] != ':')
  }

  ghost predicate IdsAt(env: Env, path: string) {
    && (env.stat(path).Found? && env.stat(path).mode.ModeDir? ==> env.stat(path).id in env.ids)
    && (env.lstat(path).Found? && env.lstat(path).mode.ModeDir? ==> env.lstat(path).id in env.ids)
  }

  ghost predicate IdsKnown(env: Env) {
    forall path: string :: IdsAt(env, path)
  }

  ghost predicate NamesAt(env: Env, path: string) {
    env.list(path).Some? ==>
      forall i | 0 <= i < |env.list(path).value| :: NameOk(env.list(path).value[i].name)
  }

  ghost predicate NamesOk(env: Env) {
    forall path: string :: NamesAt(env, path)
  }

  /** The contract of `qsort`: some permutation of its input, in comparator order. */
  ghost predicate QsortAt(env: Env, es: seq<Entry>) {
    var perm := env.qsort(es);
    && IsPermutation(perm, |es|)
    && forall i, j | 0 <= i < j < |es| :: env.compar(es[perm[i]], es[perm[j]]) <= 0
  }

  ghost predicate QsortOk(env: Env) {
    forall es: seq<Entry> :: QsortAt(env, es)
  }

  ghost predicate EnvOk(env: Env) {
    IdsKnown(env) && NamesOk(env) && QsortOk(env)
  }

  /** What stands before a child's name in the child's path. */
  function Base(path: string): string {
    if |path| > 0 && (path[|path| - 1] == '/' || path[|path| - 1] == ':') then path else path + "/"
  }

  /** The value a node takes when it is stat'ed below the ancestors `anc`. */
  function Statted(env: Env, path: string, name: string, anc: seq<Id>, follow: bool): (e: Entry) {
    var st := if env.logical || follow then env.stat(path) else env.lstat(path);
    match st
    case Failed(err) =>
      if (env.logical || follow) && env.lstat(path).Found?
      then Entry(path, name, SLNone, NO_ID, 0, 0)
      else Entry(path, name, NS, NO_ID, 0, err)
    case Found(ModeDir, id, nlink) =>
      Entry(path, name, if IsDot(name) then Dot else if id in anc then DC else D, id, nlink, 0)
    case Found(ModeLink, _, _) => Entry(path, name, SL, NO_ID, 0, 0)
    case Found(ModeRegular, _, _) => Entry(path, name, F, NO_ID, 0, 0)
    case Found(ModeOther, _, _) => Entry(path, name, Default, NO_ID, 0, 0)
  }

  predicate IsDirectory(info: Info) {
    info.D? || info.DC? || info.Dot?
  }

  /** `fts_build` may leave `stat` out only for a physical FTS_NOSTAT walk. */
  predicate Cheating(env: Env) {
    env.nostat && env.physical
  }

  function LinksOf(env: Env, e: Entry): int {
    if Cheating(env) then e.nlink - (if env.seedot then 0 else 2) else -1
  }

  predicate SkipsStat(env: Env, nlinks: int, dtype: DType) {
    nlinks == 0 || (Cheating(env) && dtype.DtOther?)
  }

  function EntryOf(env: Env, base: string, anc: seq<Id>, nlinks: int, d: Dirent): Entry {
    if SkipsStat(env, nlinks, d.dtype)
    then Entry(base + d.name, d.name, NSOK, NO_ID, 0, 0)
    else Statted(env, base + d.name, d.name, anc, false)
  }

  function LinksAfter(env: Env, nlinks: int, dtype: DType, info: Info): int {
    if !SkipsStat(env, nlinks, dtype) && nlinks > 0 && IsDirectory(info) then nlinks - 1 else nlinks
  }

  predicate Hidden(env: Env, d: Dirent) {
    !env.seedot && IsDot(d.name)
  }

  /** The entries of one directory in directory order, with `nlinks` links left to find. */
  function Scan(env: Env, base: string, anc: seq<Id>, nlinks: int, ds: seq<Dirent>): seq<Entry> {
    if ds == [] then []
    else if Hidden(env, ds[0]) then Scan(env, base, anc, nlinks, ds[1..])
    else
      var e := EntryOf(env, base, anc, nlinks, ds[0]);
      [e] + Scan(env, base, anc, LinksAfter(env, nlinks, ds[0].dtype, e.info), ds[1..])
  }

  function Permute<T>(es: seq<T>, perm: seq<nat>): (r: seq<T>)
    requires forall i | 0 <= i < |perm| :: perm[i] < |es|
    ensures |r| == |perm|
    ensures forall i | 0 <= i < |perm| :: r[i] == es[perm[i]]
  {
    seq(|perm|, i requires 0 <= i < |perm| => es[perm[i]])
  }

  function Arrange(env: Env, es: seq<Entry>): (r: seq<Entry>)
    requires EnvOk(env)
    ensures |r| == |es|
    ensures forall i | 0 <= i < |r| :: r[i] in es
  {
    if env.sorted && |es| > 1 then
      assert QsortAt(env, es);
      Permute(es, env.qsort(es))
    else es
  }

  function Children(env: Env, dir: Entry, anc: seq<Id>, ds: seq<Dirent>): seq<Entry>
    requires EnvOk(env)
  {
    Arrange(env, Scan(env, Base(dir.path), anc, LinksOf(env, dir), ds))
  }

  // ----- what the entries of a directory look like -----

  /** A directory to be descended has an identity of its own, unlike its ancestors'. */
  ghost predicate Fresh(env: Env, e: Entry, anc: seq<Id>) {
    e.info.D? ==> e.id in env.ids && e.id !in anc && e.errno == 0
  }

  ghost predicate ChildOk(env: Env, e: Entry, parent: string, anc: seq<Id>) {
    && NameOk(e.name)
    && e.path == Base(parent) + e.name
    && Fresh(env, e, anc)
    && !e.info.DP? && !e.info.DNR? && !e.info.Init?
  }

  ghost predicate ChildrenOk(env: Env, es: seq<Entry>, parent: string, anc: seq<Id>) {
    forall i | 0 <= i < |es| :: ChildOk(env, es[i], parent, anc)
  }

  lemma {:induction false} EntryOfOk(env: Env, parent: string, anc: seq<Id>, nlinks: int, d: Dirent)
    requires IdsKnown(env) && NameOk(d.name)
    ensures ChildOk(env, EntryOf(env, Base(parent), anc, nlinks, d), parent, anc)
  {
    var path := Base(parent) + d.name;
    assert IdsAt(env, path);
  }

  lemma {:induction false} ScanOk(env: Env, parent: string, anc: seq<Id>, nlinks: int, ds: seq<Dirent>)
    requires IdsKnown(env)
    requires forall i | 0 <= i < |ds| :: NameOk(ds[i].name)
    ensures ChildrenOk(env, Scan(env, Base(parent), anc, nlinks, ds), parent, anc)
  {
    if ds != [] {
      var rest := ds[1..];
      if Hidden(env, ds[0]) {
        ScanOk(env, parent, anc, nlinks, rest);
      } else {
        EntryOfOk(env, parent, anc, nlinks, ds[0]);
        var e := EntryOf(env, Base(parent), anc, nlinks, ds[0]);
        ScanOk(env, parent, anc, LinksAfter(env, nlinks, ds[0].dtype, e.info), rest);
      }
    }
  }

  lemma {:induction false} ChildrenAreOk(env: Env, dir: Entry, anc: seq<Id>)
    requires EnvOk(env) && env.list(dir.path).Some?
    ensures ChildrenOk(env, Children(env, dir, anc, env.list(dir.path).value), dir.path, anc)
  {
    assert NamesAt(env, dir.path);
    ScanOk(env, dir.path, anc, LinksOf(env, dir), env.list(dir.path).value);
    var kids := Children(env, dir, anc, env.list(dir.path).value);
    forall i | 0 <= i < |kids| ensures ChildOk(env, kids[i], dir.path, anc) {
      assert kids[i] in Scan(env, Base(dir.path), anc, LinksOf(env, dir), env.list(dir.path).value);
    }
  }

  // ----- the walk -----

  ghost function IdSet(anc: seq<Id>): set<Id> {
    set a | a in anc
  }

  ghost function Unused(env: Env, anc: seq<Id>): nat {
    |env.ids - IdSet(anc)|
  }

  lemma {:induction false} UnusedShrinks(env: Env, anc: seq<Id>, id: Id)
    requires id in env.ids && id !in anc
    ensures Unused(env, anc + [id]) < Unused(env, anc)
  {
    assert env.ids - IdSet(anc + [id]) == (env.ids - IdSet(anc)) - {id};
  }

  /** A directory's string when `fts_read` gives it back in post-order right after reading
      it empty: the last character of what stood before the names is cut off. */
  function ShownEmpty(path: string): string {
    Base(path)[..|Base(path)| - 1]
  }

  function Post(e: Entry, level: nat): Visit {
    Visit(e.path, e.(info := DP), level)
  }

  /** The visits below (and including) the node `e`, whose ancestors are `anc`. */
  ghost function WalkEntry(env: Env, e: Entry, anc: seq<Id>, level: nat, dev: int): seq<Visit>
    requires EnvOk(env) && PathOk(e.path) && Fresh(env, e, anc)
    decreases Unused(env, anc), 2, 0
  {
    [Visit(e.path, e, level)] + WalkRest(env, e, anc, level, dev)
  }

  /** The visits of that node after its first one. */
  ghost function WalkRest(env: Env, e: Entry, anc: seq<Id>, level: nat, dev: int): seq<Visit>
    requires EnvOk(env) && PathOk(e.path) && Fresh(env, e, anc)
    decreases Unused(env, anc), 1, 0
  {
    if e.info.D? then WalkBelow(env, e, anc, level, dev) else []
  }

  /** The visits after the pre-order visit of the directory `e`, to its post-order one. */
  ghost function WalkBelow(env: Env, e: Entry, anc: seq<Id>, level: nat, dev: int): seq<Visit>
    requires EnvOk(env) && PathOk(e.path) && Fresh(env, e, anc) && e.info.D?
    decreases Unused(env, anc), 0, 0
  {
    if env.skip(See(Visit(e.path, e, level))) || (env.xdev && e.id.dev != dev) then
      [Post(e, level)]
    else match env.list(e.path)
      case None => [Visit(e.path, e.(info := DNR, errno := env.dnrErrno), level)]
      case Some(ds) =>
        var kids := Children(env, e, anc + [e.id], ds);
        if kids == [] then [Visit(ShownEmpty(e.path), e.(info := DP), level)]
        else
          ChildrenAreOk(env, e, anc + [e.id]);
          UnusedShrinks(env, anc, e.id);
          ChildPathsOk(env, kids, e.path, anc + [e.id]);
          WalkList(env, kids, anc + [e.id], level + 1, dev) + [Post(e, level)]
  }

  ghost predicate Walkable(env: Env, es: seq<Entry>, anc: seq<Id>) {
    forall i | 0 <= i < |es| :: PathOk(es[i].path) && Fresh(env, es[i], anc)
  }

  ghost function WalkList(env: Env, es: seq<Entry>, anc: seq<Id>, level: nat, dev: int): seq<Visit>
    requires EnvOk(env)
    requires Walkable(env, es, anc)
    decreases Unused(env, anc), 3, |es|
  {
    if es == [] then []
    else WalkEntry(env, es[0], anc, level, dev) + WalkList(env, es[1..], anc, level, dev)
  }

  lemma {:induction false} ChildPathsOk(env: Env, es: seq<Entry>, parent: string, anc: seq<Id>)
    requires '\0' !in parent && ChildrenOk(env, es, parent, anc)
    ensures Walkable(env, es, anc)
  {
    forall i | 0 <= i < |es| ensures PathOk(es[i].path) && Fresh(env, es[i], anc) {
      assert ChildOk(env, es[i], parent, anc);
      assert es[i].path[|es[i].path| - 1] == es[i].name[|es[i].name| - 1];
    }
  }

  // ----- the roots -----

  /** The part of a root's path after its last slash, which becomes its name. */
  function LastSlash(s: string): (i: int)
    ensures -1 <= i < |s|
    ensures i >= 0 ==> s[i] == '/'
    ensures forall j | i < j < |s| :: s[j] != '/'
  {
    if s == [] then -1 else if s[|s| - 1] == '/' then |s| - 1 else LastSlash(s[..|s| - 1])
  }

  function Basename(s: string): string {
    var i := LastSlash(s);
    if i > 0 || (i == 0 && |s| > 1) then s[i + 1..] else s
  }

  function Loaded(env: Env, e: Entry): Entry {
    if env.unixPaths then e.(name := Basename(e.name)) else e
  }

  function RootEntry(env: Env, arg: string): Entry {
    var e := Statted(env, arg, arg, [], env.comfollow);
    if env.unixPaths && e.info.Dot? then e.(info := D) else e
  }

  function Roots(env: Env, args: seq<string>): seq<Entry> {
    seq(|args|, i requires 0 <= i < |args| => RootEntry(env, args[i]))
  }

  /** The roots in the order of the walk; with a comparator the list is built backwards
      before it is sorted. */
  function RootList(env: Env, args: seq<string>): seq<Entry>
    requires EnvOk(env)
  {
    if env.sorted then Arrange(env, Reverse(Roots(env, args))) else Roots(env, args)
  }

  ghost predicate RootOk(env: Env, e: Entry) {
    PathOk(e.path) && e.name == e.path && Fresh(env, e, []) && !e.info.DP? && !e.info.DNR? && !e.info.Init?
  }

  ghost predicate RootsOk(env: Env, es: seq<Entry>) {
    forall i | 0 <= i < |es| :: RootOk(env, es[i])
  }

  ghost function WalkRoots(env: Env, es: seq<Entry>): seq<Visit>
    requires EnvOk(env) && RootsOk(env, es)
  {
    if es == [] then []
    else WalkEntry(env, Loaded(env, es[0]), [], 0, es[0].id.dev) + WalkRoots(env, es[1..])
  }

  lemma {:induction false} RootEntryOk(env: Env, arg: string)
    requires EnvOk(env) && PathOk(arg)
    ensures RootOk(env, RootEntry(env, arg))
  {
    assert IdsAt(env, arg);
  }

  lemma {:induction false} RootListOk(env: Env, args: seq<string>)
    requires EnvOk(env) && forall i | 0 <= i < |args| :: PathOk(args[i])
    ensures RootsOk(env, RootList(env, args)) && |RootList(env, args)| == |args|
  {
    forall i | 0 <= i < |args| ensures RootOk(env, RootEntry(env, args[i])) {
      RootEntryOk(env, args[i]);
    }
    var all := if env.sorted then Reverse(Roots(env, args)) else Roots(env, args);
    forall i | 0 <= i < |args| ensures RootOk(env, RootList(env, args)[i]) {
      assert RootList(env, args)[i] in all;
    }
  }

  /** Every root stands for one of the arguments. */
  lemma {:induction false} RootIs(env: Env, args: seq<string>, i: nat) returns (j: nat)
    requires EnvOk(env) && i < |RootList(env, args)|
    ensures j < |args| && RootList(env, args)[i].path == args[j]
  {
    hide EnvOk, Statted;
    var all := if env.sorted then Reverse(Roots(env, args)) else Roots(env, args);
    assert RootList(env, args)[i] in all;
    var k :| 0 <= k < |all| && all[k] == RootList(env, args)[i];
    j := if env.sorted then |args| - 1 - k else k;
    assert all[k] == RootEntry(env, args[j]);
    RootEntryPath(env, args[j]);
  }

  lemma {:induction false} RootEntryPath(env: Env, arg: string)
    ensures RootEntry(env, arg).path == arg
  {
  }
}
