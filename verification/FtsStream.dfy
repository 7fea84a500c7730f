/**
 * The fts stream itself: `fts_open`, `fts_read`, `fts_build`, `fts_stat`, `fts_sort`,
 * `fts_padjust`, `fts_load` and `fts_close`, updating linked nodes and the shared path
 * buffer in place.  A walk with FTS_NOCHDIR set (or a logical one, which sets it).
 */
module FtsStream {
  import opened Common
  import opened FtsSpec
  import opened FtsCursor
  import opened FtsMemory
  import opened FtsPath
  import opened FtsGrow

  const MAXPATHLEN: nat := 1024

  /** `malloc` always finds an address. */
  lemma {:induction false} FreshAddress(keys: set<Ptr>) returns (p: Ptr)
    ensures p.At? && p !in keys
    ensures forall q | q in keys && q.At? :: q.addr < p.addr
    decreases keys
  {
    if keys == {} {
      p := At(0);
    } else {
      var k :| k in keys;
      p := FreshAddress(keys - {k});
      if k.At? && p.addr <= k.addr { p := At(k.addr + 1); }
      forall q | q in keys && q.At? ensures q.addr < p.addr {
        assert q == k || q in keys - {k};
      }
    }
  }

  /** A node after `fts_stat` found the values of `e`, and the node `cycle` for a cycle. */
  function Restat(n: Node, e: Entry, cycle: Ptr): Node {
    n.(info := e.info, cycle := cycle,
       id := if IsDirectory(e.info) then e.id else n.id,
       nlink := if IsDirectory(e.info) then e.nlink else n.nlink,
       errno := if e.info.NS? then e.errno else n.errno)
  }

  lemma {:induction false} RestatView(n: Node, env: Env, s: string, anc: seq<Id>, follow: bool, cycle: Ptr, path: string)
    requires n.errno == 0
    ensures var e := Statted(env, s, n.name, anc, follow);
            e.path == s && e.name == n.name && View(Restat(n, e, cycle), path) == e.(path := path)
  {
  }

  /** One of the nodes below which the next level would hang. */
  ghost predicate IsAbove(qs: Lists, c: Ptr) {
    exists k | 0 <= k < |qs| :: |qs[k]| > 0 && c == qs[k][0]
  }

  /** A node after `fts_padjust` moved its pointers to the block `b`. */
  function Adjust(n: Node, b: nat): Node {
    n.(path := b, acc := if n.acc.OwnName? then OwnName else Block(b))
  }

  /** The nodes outside `rest` point into the block `b`; nothing else changed. */
  ghost predicate Adjusted(old_: Memory, mem: Memory, rest: Memory, b: nat) {
    && mem.Keys == old_.Keys
    && forall q | q in mem :: mem[q] == if q in rest then old_[q] else Adjust(old_[q], b)
  }

  lemma {:induction false} AdjustOne(old_: Memory, mem: Memory, rest: Memory, b: nat, p: Ptr)
    requires Adjusted(old_, mem, rest, b) && p in rest && p in mem
    ensures Adjusted(old_, mem[p := Adjust(mem[p], b)], rest - {p}, b)
  {
    var mem' := mem[p := Adjust(mem[p], b)];
    assert mem'.Keys == old_.Keys;
  }

  method AdjustAll(m: Memory, head: Ptr, b: nat, ghost qs: Lists, ghost top: Ptr) returns (r: Memory)
    requires Shape(m, qs, top) && Live(m, qs, top) && head == Head(qs, top)
    ensures Adjusted(m, r, map[top := m[top]], b)
  {
    r := m;
    var p := head;
    // the nodes still to be adjusted, and their lists
    ghost var rest: Memory, todo := m, qs;
    HeadInMemory(m, qs, top);
    hide Shape, Live, Head;
    while r[p].level >= 0
      invariant Adjusted(m, r, rest, b)
      invariant forall q | q in rest :: q in m && rest[q] == m[q]
      invariant Shape(rest, todo, top) && Live(rest, todo, top)
      invariant p in rest && p == Head(todo, top) && rest[p].level == |todo| - 1
      decreases |rest|
    {
      FollowingIsHead(rest, todo, top);
      AdjustOne(m, r, rest, b, p);
      rest, todo := rest - {p}, DropCur(todo);
      r := r[p := Adjust(r[p], b)];
      p := if r[p].link != Null then r[p].link else r[p].parent;
    }
    OnlyTop(rest, todo, top);
  }

  lemma {:induction false} OnlyTop(mem: Memory, ps: Lists, top: Ptr)
    requires Shape(mem, ps, top) && Live(mem, ps, top) && ps == []
    ensures mem.Keys == {top}
  {
  }

  function LinkTo(m: Memory, arr: seq<Ptr>, i: nat): Node
    requires i < |arr| && arr[i] in m
  {
    m[arr[i]].(link := After1(arr, i))
  }

  /** The first `n` nodes of `arr` are linked to their successors; nothing else changed. */
  ghost predicate Relinked(m: Memory, r: Memory, arr: seq<Ptr>, n: nat) {
    && r.Keys == m.Keys
    && (forall q | q in m && q !in arr :: r[q] == m[q])
    && (forall i | 0 <= i < |arr| :: arr[i] in m && r[arr[i]] == if i < n then LinkTo(m, arr, i) else m[arr[i]])
  }

  lemma {:induction false} RelinkOne(m: Memory, r: Memory, arr: seq<Ptr>, n: nat)
    requires Distinct(arr) && n < |arr| && Relinked(m, r, arr, n)
    ensures Relinked(m, r[arr[n] := r[arr[n]].(link := After1(arr, n))], arr, n + 1)
  {
    var r' := r[arr[n] := r[arr[n]].(link := After1(arr, n))];
    assert r'.Keys == m.Keys;
    forall i | 0 <= i < |arr|
      ensures arr[i] in m && r'[arr[i]] == if i < n + 1 then LinkTo(m, arr, i) else m[arr[i]]
    {
      assert i != n ==> arr[i] != arr[n];
    }
  }

  /** The second half of `fts_sort`: the nodes of `arr` linked in that order. */
  method Relink(m: Memory, arr: seq<Ptr>) returns (r: Memory)
    requires Distinct(arr) && |arr| > 0 && forall i | 0 <= i < |arr| :: arr[i] in m
    ensures Relinked(m, r, arr, |arr|)
  {
    r := m;
    var i := 0;
    while i + 1 < |arr|
      invariant 0 <= i < |arr| && Relinked(m, r, arr, i)
    {
      RelinkOne(m, r, arr, i);
      r := r[arr[i] := r[arr[i]].(link := arr[i + 1])];
      i := i + 1;
    }
    RelinkOne(m, r, arr, i);
    r := r[arr[i] := r[arr[i]].(link := Null)];
  }

  lemma {:induction false} PermuteDistinct(l: seq<Ptr>, perm: seq<nat>)
    requires Distinct(l) && IsPermutation(perm, |l|)
    ensures Distinct(Permute(l, perm))
  {
  }

  lemma {:induction false} RelinkedList(m: Memory, r: Memory, l: seq<Ptr>, es: seq<Entry>, perm: seq<nat>,
                                        level: int, parent: Ptr, loaded: nat)
    requires ListShape(m, l, level, parent) && Holds(m, l, es, loaded) && loaded in {0, |l|}
    requires IsPermutation(perm, |l|) && Relinked(m, r, Permute(l, perm), |l|)
    ensures ListShape(r, Permute(l, perm), level, parent)
    ensures Holds(r, Permute(l, perm), Permute(es, perm), loaded)
  {
    PermuteDistinct(l, perm);
    var arr := Permute(l, perm);
    forall i | 0 <= i < |arr| ensures NodeShape(r, arr, level, parent, i) {
      assert NodeShape(m, l, level, parent, perm[i]);
    }
    forall i | 0 <= i < |arr| ensures arr[i] in r && NodeIs(r[arr[i]], Permute(es, perm)[i], i < loaded) {
      assert NodeIs(m[l[perm[i]]], es[perm[i]], perm[i] < loaded);
    }
  }

  /** `fts_sort`: the list of siblings in the order that `qsort` gives their entries. */
  method SortList(env: Env, m: Memory, head: Ptr, es: seq<Entry>,
                  ghost l: seq<Ptr>, ghost level: int, ghost parent: Ptr, ghost loaded: nat)
    returns (r: Memory, h: Ptr, ghost l': seq<Ptr>)
    requires EnvOk(env) && ListShape(m, l, level, parent) && |l| > 0 && head == l[0]
    requires Holds(m, l, es, loaded) && loaded in {0, |l|}
    ensures l' == Permute(l, assert QsortAt(env, es); env.qsort(es)) && h == l'[0]
    ensures ListShape(r, l', level, parent)
    ensures Holds(r, l', assert QsortAt(env, es); Permute(es, env.qsort(es)), loaded)
    ensures Relinked(m, r, l', |l'|)
  {
    forall i | 0 <= i < |l| ensures l[i] != Null { assert NodeShape(m, l, level, parent, i); }
    var arr := [];
    var p := head;
    while p != Null
      invariant |arr| <= |l| && arr == l[..|arr|] && p == if |arr| < |l| then l[|arr|] else Null
      decreases |l| - |arr|
    {
      assert NodeShape(m, l, level, parent, |arr|);
      arr := arr + [p];
      p := m[p].link;
    }
    assert arr == l;
    assert QsortAt(env, es);
    var perm := env.qsort(es);
    arr := Permute(arr, perm);
    l' := arr;
    PermuteDistinct(l, perm);
    forall i | 0 <= i < |arr| ensures arr[i] in m {
      assert NodeShape(m, l, level, parent, perm[i]);
    }
    r := Relink(m, arr);
    h := arr[0];
    RelinkedList(m, r, l, es, perm, level, parent, loaded);
  }

  /** The nodes `kids` are new in `mem`, and all others are as before. */
  ghost predicate Added(old_: Memory, mem: Memory, kids: seq<Ptr>) {
    && (forall q | q in old_ :: q in mem && mem[q] == old_[q])
    && (forall q | q in mem :: q in old_ || q in kids)
    && (forall i | 0 <= i < |kids| :: kids[i] !in old_)
  }

  /** The nodes' identities that `fts_stat` compares with, from the root down. */
  ghost predicate Ids(mem: Memory, ps: Lists, anc: seq<Id>) {
    && |anc| == |ps|
    && forall k | 0 <= k < |ps| :: |ps[k]| > 0 && ps[k][0] in mem && mem[ps[k][0]].id == anc[k]
  }

  lemma {:induction false} ExtendShape(old_: Memory, mem: Memory, ps: Lists, top: Ptr, kids: seq<Ptr>)
    requires Shape(old_, ps, top) && Added(old_, mem, kids) && Null !in mem
    ensures Shape(mem, ps, top)
    ensures forall anc | Ids(old_, ps, anc) :: Ids(mem, ps, anc)
  {
    forall k | 0 <= k < |ps| ensures LevelShape(mem, ps, top, k) {
      assert LevelShape(old_, ps, top, k);
      forall i | 0 <= i < |ps[k]| ensures ps[k][i] in old_ { OnLevel(old_, ps, top, k, i); }
      ListShapeFrame(old_, mem, ps[k], k, Up(ps, k, top));
    }
  }

  lemma {:induction false} ExtendContent(old_: Memory, mem: Memory, ps: Lists, z: Levels, kids: seq<Ptr>)
    requires Content(old_, ps, z) && Added(old_, mem, kids)
    ensures Content(mem, ps, z)
  {
    forall k | 0 <= k < |ps| ensures Holds(mem, ps[k], Nodes(z[k]), LoadedOn(k, ps[k])) {
      assert Holds(old_, ps[k], Nodes(z[k]), LoadedOn(k, ps[k]));
    }
  }

  /** Memory after the new node `p` is hung behind the last of `kids`. */
  function Hang(mem: Memory, kids: seq<Ptr>, p: Ptr): Memory
    requires kids != [] ==> kids[|kids| - 1] in mem
  {
    if kids == [] then mem else mem[kids[|kids| - 1] := mem[kids[|kids| - 1]].(link := p)]
  }

  ghost predicate NewNode(old_: Memory, mem: Memory, p: Ptr, level: int, parent: Ptr) {
    && p != Null && p !in old_ && p in mem && mem == old_[p := mem[p]]
    && mem[p].level == level && mem[p].parent == parent && mem[p].link == Null && mem[p].instr.NoInstr?
  }

  function First(l: seq<Ptr>): Ptr {
    if l == [] then Null else l[0]
  }

  function Last(l: seq<Ptr>): Ptr {
    if l == [] then Null else l[|l| - 1]
  }

  /** The new nodes `kids`, the only difference between `base` and `mem`, form a list that holds `es`. */
  ghost predicate Kids(base: Memory, mem: Memory, kids: seq<Ptr>, es: seq<Entry>, level: int, parent: Ptr) {
    && Added(base, mem, kids) && Null !in mem
    && ListShape(mem, kids, level, parent)
    && Holds(mem, kids, es, |kids|)
    && forall i | 0 <= i < |kids| :: kids[i] in mem && mem[kids[i]].instr.NoInstr?
  }

  ghost predicate InBlocks(mem: Memory, kids: seq<Ptr>, b: nat) {
    forall i | 0 <= i < |kids| :: kids[i] in mem && InBlock(mem[kids[i]], b)
  }

  lemma {:induction false} HangShape(m0: Memory, m1: Memory, kids: seq<Ptr>, level: int, parent: Ptr, p: Ptr)
    requires ListShape(m0, kids, level, parent) && NewNode(m0, m1, p, level, parent)
    ensures kids != [] ==> kids[|kids| - 1] in m1
    ensures ListShape(Hang(m1, kids, p), kids + [p], level, parent)
  {
    forall i | 0 <= i < |kids| ensures kids[i] in m0 { assert NodeShape(m0, kids, level, parent, i); }
    var m := Hang(m1, kids, p);
    var l := kids + [p];
    assert Distinct(l);
    forall i | 0 <= i < |l| ensures NodeShape(m, l, level, parent, i) {
      if i < |kids| { assert NodeShape(m0, kids, level, parent, i); }
    }
  }

  lemma {:induction false} HangHolds(m0: Memory, m1: Memory, kids: seq<Ptr>, es: seq<Entry>, p: Ptr, e: Entry)
    requires Distinct(kids) && Holds(m0, kids, es, |kids|) && p !in m0 && p in m1 && m1 == m0[p := m1[p]]
    requires NodeIs(m1[p], e, true)
    ensures kids != [] ==> kids[|kids| - 1] in m1
    ensures Holds(Hang(m1, kids, p), kids + [p], es + [e], |kids| + 1)
  {
    var m := Hang(m1, kids, p);
    var l := kids + [p];
    forall i | 0 <= i < |l| ensures l[i] in m && NodeIs(m[l[i]], (es + [e])[i], i < |l|) {
    }
  }

  lemma {:induction false} HangAdded(base: Memory, m0: Memory, m1: Memory, kids: seq<Ptr>, p: Ptr)
    requires Added(base, m0, kids) && p !in m0 && p in m1 && m1 == m0[p := m1[p]]
    requires kids != [] ==> kids[|kids| - 1] in m1
    ensures Added(base, Hang(m1, kids, p), kids + [p])
  {
    var m := Hang(m1, kids, p);
    forall q | q in m ensures q in base || q in kids + [p] {
      assert (kids + [p])[|kids|] == p;
      if q in kids { var i :| 0 <= i < |kids| && kids[i] == q; assert (kids + [p])[i] == q; }
    }
  }

  /** Whatever string `fts_stat` looked at, the entry is one of a child. */
  lemma {:induction false} HangKids(base: Memory, m0: Memory, m1: Memory, kids: seq<Ptr>, es: seq<Entry>,
                                    level: int, parent: Ptr, p: Ptr, e: Entry)
    requires Kids(base, m0, kids, es, level, parent) && NewNode(m0, m1, p, level, parent) && NodeIs(m1[p], e, true)
    ensures kids != [] ==> kids[|kids| - 1] in m1
    ensures Kids(base, Hang(m1, kids, p), kids + [p], es + [e], level, parent)
    ensures forall b | InBlocks(m0, kids, b) && InBlock(m1[p], b) :: InBlocks(Hang(m1, kids, p), kids + [p], b)
  {
    HangShape(m0, m1, kids, level, parent, p);
    HangHolds(m0, m1, kids, es, p, e);
    HangAdded(base, m0, m1, kids, p);
    var m := Hang(m1, kids, p);
    var l := kids + [p];
    forall i | 0 <= i < |l| ensures l[i] in m && m[l[i]].instr.NoInstr? {
      if i < |kids| { assert kids[i] in m0 && m0[kids[i]].instr.NoInstr?; }
    }
    forall b | InBlocks(m0, kids, b) && InBlock(m1[p], b) ensures InBlocks(m, l, b) {
      forall i | 0 <= i < |l| ensures l[i] in m && InBlock(m[l[i]], b) {
        if i < |kids| { assert kids[i] in m0 && InBlock(m0[kids[i]], b); }
      }
    }
  }

  /** Entries of children of `dir` whose paths fit into a buffer of `cap` characters. */
  ghost predicate Fitting(env: Env, es: seq<Entry>, dir: string, anc: seq<Id>, cap: nat) {
    && ChildrenOk(env, es, dir, anc)
    && forall i | 0 <= i < |es| :: |es[i].path| < cap
  }

  lemma {:induction false} FittingAppend(env: Env, es: seq<Entry>, dir: string, anc: seq<Id>, cap: nat, e: Entry, cap': nat)
    requires Fitting(env, es, dir, anc, cap) && ChildOk(env, e, dir, anc) && |e.path| < cap' && cap <= cap'
    ensures Fitting(env, es + [e], dir, anc, cap')
  {
    forall i | 0 <= i < |es + [e]| ensures ChildOk(env, (es + [e])[i], dir, anc) && |(es + [e])[i].path| < cap' {
      if i < |es| { assert ChildOk(env, es[i], dir, anc); }
    }
  }

  lemma {:induction false} KidsEmpty(env: Env, mem: Memory, level: int, parent: Ptr, dir: string, anc: seq<Id>, cap: nat, b: nat)
    ensures Null !in mem ==> Kids(mem, mem, [], [], level, parent)
    ensures Fitting(env, [], dir, anc, cap) && InBlocks(mem, [], b)
  {
  }

  lemma {:induction false} BuiltNone(env: Env, mv: Realloc, base: string, anc: seq<Id>, nlinks: int, b: Buffer, ds: seq<Dirent>)
    requires ds == []
    ensures Built(env, mv, base, anc, nlinks, b, ds) == [] && Room(env, mv, base, b, ds) == b
  {
  }

  lemma {:induction false} BuiltOne(env: Env, mv: Realloc, base: string, anc: seq<Id>, nlinks: int, b: Buffer,
                                    ds: seq<Dirent>, i: nat, es: seq<Entry>)
    requires i < |ds|
    ensures Hidden(env, ds[i]) ==>
              && Built(env, mv, base, anc, nlinks, b, ds[i..]) == Built(env, mv, base, anc, nlinks, b, ds[i + 1..])
              && Room(env, mv, base, b, ds[i..]) == Room(env, mv, base, b, ds[i + 1..])
    ensures var e := EntryBuilt(env, mv, base, anc, nlinks, b, ds[i]);
            var c := Grown(mv, b, |base| + |ds[i].name|);
            !Hidden(env, ds[i]) ==>
              && es + Built(env, mv, base, anc, nlinks, b, ds[i..])
                 == (es + [e]) + Built(env, mv, base, anc, LinksAfter(env, nlinks, ds[i].dtype, e.info), c, ds[i + 1..])
              && Room(env, mv, base, b, ds[i..]) == Room(env, mv, base, c, ds[i + 1..])
  {
    hide EntryBuilt, LinksAfter, Hidden, Grown;
    assert ds[i..][1..] == ds[i + 1..];
  }

  ghost predicate LevelFits(v: Level, cap: nat) {
    |v.head.path| < cap && forall i | 0 <= i < |v.rest| :: |v.rest[i].path| < cap
  }

  ghost predicate Fits(z: Levels, cap: nat) {
    forall k | 0 <= k < |z| :: LevelFits(z[k], cap)
  }

  lemma {:induction false} FitsSetCur(z: Levels, e: Entry, cap: nat)
    requires |z| > 0 && Fits(z, cap) && e.path == Cur(z).path
    ensures Fits(SetCur(z, e), cap)
  {
    forall k | 0 <= k < |z| ensures LevelFits(SetCur(z, e)[k], cap) {
      assert LevelFits(z[k], cap);
    }
  }

  /** The string that the buffer spells at a position: the current path, except after an
      empty root directory. */
  ghost predicate Shows(z: Levels, shown: string)
    requires |z| > 0
  {
    || shown == Cur(z).path
    || (|z| == 1 && !Cur(z).info.D? && shown == ShownEmpty(Cur(z).path))
  }

  lemma {:induction false} AdjustedKeeps(m: Memory, r: Memory, ps: Lists, top: Ptr, z: Levels, b: nat)
    requires Whole(m, ps, top, z) && Adjusted(m, r, map[top := m[top]], b)
    ensures Whole(r, ps, top, z) && Blocks(r, top, b)
    ensures AllQuiet(m) ==> AllQuiet(r)
  {
    ShapeFrame(m, r, ps, top);
    forall k | 0 <= k < |ps| ensures Holds(r, ps[k], Nodes(z[k]), LoadedOn(k, ps[k])) {
      hide Live, AllQuiet, Blocks;
      assert Holds(m, ps[k], Nodes(z[k]), LoadedOn(k, ps[k]));
      AdjustedHolds(m, r, ps, top, k, Nodes(z[k]), b);
    }
  }

  lemma {:induction false} AdjustedHolds(m: Memory, r: Memory, ps: Lists, top: Ptr, k: nat, es: seq<Entry>, b: nat)
    requires Shape(m, ps, top) && k < |ps| && Holds(m, ps[k], es, LoadedOn(k, ps[k]))
    requires Adjusted(m, r, map[top := m[top]], b)
    ensures Holds(r, ps[k], es, LoadedOn(k, ps[k]))
  {
    forall i | 0 <= i < |ps[k]| ensures ps[k][i] in r && NodeIs(r[ps[k][i]], es[i], i < LoadedOn(k, ps[k])) {
      OnLevel(m, ps, top, k, i);
    }
  }

  /** `l` lists the nodes of `kids` in another order. */
  ghost predicate SameNodes(kids: seq<Ptr>, l: seq<Ptr>) {
    && (forall i | 0 <= i < |l| :: l[i] in kids)
    && (forall i | 0 <= i < |kids| :: kids[i] in l)
  }

  lemma {:induction false} PermuteSameNodes(kids: seq<Ptr>, perm: seq<nat>)
    requires IsPermutation(perm, |kids|)
    ensures SameNodes(kids, Permute(kids, perm))
  {
    var l := Permute(kids, perm);
    forall i | 0 <= i < |kids| ensures kids[i] in l {
      assert i in perm;
      var j :| 0 <= j < |perm| && perm[j] == i;
      assert l[j] == kids[i];
    }
  }

  lemma {:induction false} RelinkedSame(m: Memory, r: Memory, l: seq<Ptr>)
    requires Relinked(m, r, l, |l|)
    ensures r.Keys == m.Keys && forall p | p in m :: r[p] == m[p].(link := r[p].link)
  {
    forall p | p in m ensures r[p] == m[p].(link := r[p].link) {
      if p in l { var i :| 0 <= i < |l| && l[i] == p; assert r[l[i]] == LinkTo(m, l, i); }
    }
  }

  lemma {:induction false} SortedShape(m: Memory, r: Memory, ps: Lists, top: Ptr, kids: seq<Ptr>, l: seq<Ptr>)
    requires Shape(m, ps + [kids], top) && Live(m, ps + [kids], top)
    requires Relinked(m, r, l, |l|) && l != [] && SameNodes(kids, l)
    requires ListShape(r, l, |ps|, Head(ps, top))
    ensures Shape(r, ps + [l], top) && Live(r, ps + [l], top)
  {
    var qs, rs := ps + [kids], ps + [l];
    forall i | 0 <= i < |kids| ensures kids[i] in m && m[kids[i]].level == |ps| { OnLevel(m, qs, top, |ps|, i); }
    RelinkedSame(m, r, l);
    forall k | 0 <= k < |rs| ensures LevelShape(r, rs, top, k) {
      if k < |ps| {
        assert LevelShape(m, qs, top, k);
        forall i | 0 <= i < |ps[k]| ensures ps[k][i] in m && ps[k][i] !in l { OnLevel(m, qs, top, k, i); }
        ListShapeFrame(m, r, ps[k], k, Up(ps, k, top));
      }
    }
    assert forall k | 0 <= k < |ps| :: |ps[k]| > 0 by { assert forall k | 0 <= k < |ps| :: qs[k] == ps[k]; }
    assert m[top].level == -1 && top !in l;
    forall p | p in r ensures p == top || (0 <= r[p].level < |rs| && p in rs[r[p].level]) {
      assert p == top || p in qs[m[p].level];
    }
  }

  lemma {:induction false} SortedContent(m: Memory, r: Memory, ps: Lists, top: Ptr, z: Levels,
                                         kids: seq<Ptr>, l: seq<Ptr>, es: seq<Entry>)
    requires Shape(m, ps + [kids], top) && |ps| > 0 && |ps| == |z| && ContentTo(m, ps, z, |ps|)
    requires Relinked(m, r, l, |l|) && l != [] && SameNodes(kids, l) && Holds(r, l, es, |l|)
    ensures Content(r, ps + [l], z + [Level(es[0], es[1..])])
    ensures forall b | Blocks(m, top, b) :: Blocks(r, top, b)
    ensures AllQuiet(m) ==> AllQuiet(r)
  {
    var qs, rs := ps + [kids], ps + [l];
    var y := z + [Level(es[0], es[1..])];
    assert Nodes(y[|z|]) == es;
    forall i | 0 <= i < |kids| ensures kids[i] in m && m[kids[i]].level == |ps| { OnLevel(m, qs, top, |ps|, i); }
    RelinkedSame(m, r, l);
    forall k | 0 <= k < |rs| ensures Holds(r, rs[k], Nodes(y[k]), LoadedOn(k, rs[k])) {
      if k < |ps| {
        assert Holds(m, ps[k], Nodes(z[k]), LoadedOn(k, ps[k]));
      }
    }
  }

  lemma {:induction false} PushFits(env: Env, z: Levels, es: seq<Entry>, cap: nat)
    requires Ok(env, z) && |z| > 0 && Cur(z).info.D? && es != [] && Fits(z, cap)
    requires Fitting(env, es, Cur(z).path, Anc(z, |z|), cap)
    ensures var es' := Arrange(env, es); var y := z + [Level(es'[0], es'[1..])];
            Ok(env, y) && Fits(y, cap)
  {
    var es' := Arrange(env, es);
    forall i | 0 <= i < |es'| ensures ChildOk(env, es'[i], Cur(z).path, Anc(z, |z|)) && |es'[i].path| < cap {
      var j :| 0 <= j < |es| && es[j] == es'[i];
      assert ChildOk(env, es[j], Cur(z).path, Anc(z, |z|));
    }
    PushOk(env, z, es');
    var y := z + [Level(es'[0], es'[1..])];
    forall k | 0 <= k < |y| ensures LevelFits(y[k], cap) {
      if k < |z| { assert LevelFits(z[k], cap); }
    }
  }

  lemma {:induction false} PushShape(old_: Memory, mem: Memory, ps: Lists, top: Ptr, kids: seq<Ptr>)
    requires Shape(old_, ps, top) && Live(old_, ps, top) && |ps| > 0 && kids != []
    requires Added(old_, mem, kids) && Null !in mem
    requires ListShape(mem, kids, |ps|, ps[|ps| - 1][0])
    ensures Shape(mem, ps + [kids], top) && Live(mem, ps + [kids], top)
  {
    var qs := ps + [kids];
    forall k | 0 <= k < |qs| ensures LevelShape(mem, qs, top, k) {
      if k < |ps| {
        assert LevelShape(old_, ps, top, k);
        forall i | 0 <= i < |ps[k]| ensures ps[k][i] in old_ { OnLevel(old_, ps, top, k, i); }
        ListShapeFrame(old_, mem, ps[k], k, Up(ps, k, top));
      }
    }
    forall p | p in mem ensures p == top || (0 <= mem[p].level < |qs| && p in qs[mem[p].level]) {
      if p in old_ {
        assert p == top || p in ps[old_[p].level];
      } else {
        var i :| 0 <= i < |kids| && kids[i] == p;
        assert NodeShape(mem, kids, |ps|, ps[|ps| - 1][0], i);
      }
    }
  }

  lemma {:induction false} PushContent(old_: Memory, mem: Memory, ps: Lists, z: Levels, kids: seq<Ptr>, es: seq<Entry>)
    requires Content(old_, ps, z) && |ps| > 0 && |kids| > 0
    requires Added(old_, mem, kids) && Holds(mem, kids, es, |kids|)
    ensures Content(mem, ps + [kids], z + [Level(es[0], es[1..])])
  {
    var qs := ps + [kids];
    var y := z + [Level(es[0], es[1..])];
    assert Nodes(y[|z|]) == es;
    forall k | 0 <= k < |qs| ensures Holds(mem, qs[k], Nodes(y[k]), LoadedOn(k, qs[k])) {
      if k < |ps| { assert Holds(old_, ps[k], Nodes(z[k]), LoadedOn(k, ps[k])); }
    }
  }

  lemma {:induction false} PushWhole(old_: Memory, mem: Memory, ps: Lists, top: Ptr, z: Levels, kids: seq<Ptr>, es: seq<Entry>)
    requires Whole(old_, ps, top, z) && |ps| > 0 && kids != []
    requires Kids(old_, mem, kids, es, |ps|, Head(ps, top))
    ensures Whole(mem, ps + [kids], top, z + [Level(es[0], es[1..])]) && Head(ps + [kids], top) == First(kids)
    ensures AllQuiet(old_) ==> AllQuiet(mem)
    ensures forall b | Blocks(old_, top, b) && InBlocks(mem, kids, b) :: Blocks(mem, top, b)
  {
    PushShape(old_, mem, ps, top, kids);
    PushContent(old_, mem, ps, z, kids, es);
  }

  lemma {:induction false} HeadOfLast(ps: Lists, l: seq<Ptr>, top: Ptr)
    requires l != []
    ensures Head(ps + [l], top) == l[0]
  {
  }

  lemma {:induction false} LastLevel(m: Memory, ps: Lists, top: Ptr, z: Levels, kids: seq<Ptr>, es: seq<Entry>)
    requires es != [] && |ps| > 0 && Whole(m, ps + [kids], top, z + [Level(es[0], es[1..])])
    ensures |ps| == |z| && ContentTo(m, ps, z, |ps|)
    ensures ListShape(m, kids, |ps|, Head(ps, top)) && Holds(m, kids, es, |kids|)
    ensures Head(ps + [kids], top) == First(kids) && kids != []
  {
    var qs, y := ps + [kids], z + [Level(es[0], es[1..])];
    assert qs[|ps|] == kids && Nodes(y[|ps|]) == es;
    assert LevelShape(m, qs, top, |ps|);
    assert Holds(m, qs[|ps|], Nodes(y[|ps|]), LoadedOn(|ps|, kids));
    forall k | 0 <= k < |ps| ensures Holds(m, ps[k], Nodes(z[k]), LoadedOn(k, ps[k])) {
      assert qs[k] == ps[k] && y[k] == z[k];
      assert Holds(m, qs[k], Nodes(y[k]), LoadedOn(k, qs[k]));
    }
    assert |qs[|ps| - 1]| > 0;
  }

  lemma {:induction false} KidsFacts(env: Env, m0: Memory, mem: Memory, ps: Lists, top: Ptr, z: Levels,
                                     kids: seq<Ptr>, es: seq<Entry>)
    requires Ok(env, z) && Whole(m0, ps, top, z) && Kids(m0, mem, kids, es, |z|, Head(ps, top))
    ensures EnvOk(env) && |ps| == |z| && |kids| == |es|
  {
  }

  /** The nodes and their lists hold the position `z`, whose paths fit a buffer of `cap` characters. */
  ghost predicate LinkedState(env: Env, mem: Memory, ps: Lists, top: Ptr, z: Levels, cap: nat, block: nat, dev: int) {
    && Ok(env, z) && |z| > 0
    && Whole(mem, ps, top, z)
    && Blocks(mem, top, block) && Fits(z, cap)
    && (z[0].head.info.D? ==> dev == z[0].head.id.dev)
  }

  lemma {:induction false} PushLinked(env: Env, mem: Memory, qs: Lists, top: Ptr, z: Levels, es: seq<Entry>,
                                      cap: nat, block: nat, dev: int)
    requires Ok(env, z) && |z| > 0 && Cur(z).info.D? && Fits(z, cap) && es != []
    requires Fitting(env, es, Cur(z).path, Anc(z, |z|), cap)
    requires var es' := Arrange(env, es); Whole(mem, qs, top, z + [Level(es'[0], es'[1..])])
    requires Blocks(mem, top, block) && (z[0].head.info.D? ==> dev == z[0].head.id.dev)
    ensures var es' := Arrange(env, es); LinkedState(env, mem, qs, top, z + [Level(es'[0], es'[1..])], cap, block, dev)
  {
    PushFits(env, z, es, cap);
  }

  /** Besides, no other node than the current one carries an instruction, and the buffer
      spells the current node's path. */
  ghost predicate WalkingState(env: Env, mem: Memory, cur: Ptr, ps: Lists, top: Ptr, z: Levels,
                               path: seq<char>, block: nat, dev: int, shown: string) {
    && LinkedState(env, mem, ps, top, z, |path|, block, dev)
    && cur == Head(ps, top) && Quiet(mem, cur)
    && Spells(path, shown) && Shows(z, shown) && IsPow2(|path|)
  }

  lemma {:induction false} DescendCases(env: Env, mv: Realloc, z: Levels, b: Buffer)
    requires EnvOk(env) && |z| > 0
    ensures env.list(Cur(z).path).None? ==>
              && DescendOn(env, mv, z, b) == Step(SetCur(z, Cur(z).(info := DNR, errno := env.dnrErrno)), Cur(z).path)
              && RoomIn(env, mv, Cur(z).path, b) == b
    ensures env.list(Cur(z).path).Some? ==>
              var ds := env.list(Cur(z).path).value;
              var es := Built(env, mv, Base(Cur(z).path), Anc(z, |z|), LinksOf(env, Cur(z)), b, ds);
              var es' := Arrange(env, es);
              && RoomIn(env, mv, Cur(z).path, b) == Room(env, mv, Base(Cur(z).path), b, ds)
              && DescendOn(env, mv, z, b) == if es == [] then Step(SetCur(z, Cur(z).(info := DP)), ShownEmpty(Cur(z).path))
                                             else Stand(z + [Level(es'[0], es'[1..])])
  {
  }

  lemma {:induction false} CurFacts(env: Env, mem: Memory, ps: Lists, top: Ptr, z: Levels, cap: nat, block: nat, dev: int)
    requires LinkedState(env, mem, ps, top, z, cap, block, dev)
    ensures |ps| == |z| && Head(ps, top) in mem && Head(ps, top) != top && Head(ps, top) == ps[|ps| - 1][0]
    ensures NodeIs(mem[Head(ps, top)], Cur(z), true) && mem[Head(ps, top)].acc == Block(block)
    ensures |Cur(z).path| < cap && PathOk(Cur(z).path) && Fresh(env, Cur(z), Anc(z, |z| - 1))
  {
    var t := |ps| - 1;
    OnLevel(mem, ps, top, t, 0);
    assert Holds(mem, ps[t], Nodes(z[t]), LoadedOn(t, ps[t]));
    assert NodeIs(mem[ps[t][0]], Nodes(z[t])[0], true);
    assert LevelFits(z[t], cap);
    assert LevelOk(env, z, t);
  }

  /** Only a root's path can end in '/' or ':'. */
  lemma {:induction false} ShownEmptyIs(env: Env, z: Levels)
    requires Ok(env, z) && |z| > 1
    ensures ShownEmpty(Cur(z).path) == Cur(z).path
  {
    assert LevelOk(env, z, |z| - 1);
    var p := Cur(z).path;
    assert p[|p| - 1] == Cur(z).name[|Cur(z).name| - 1];
  }

  lemma {:induction false} LinksOfIs(env: Env, e: Entry)
    ensures LinksOf(env, e) == if env.nostat && env.physical then e.nlink - (if env.seedot then 0 else 2) else -1
  {
  }

  lemma {:induction false} NamesListed(env: Env, path: string)
    requires EnvOk(env) && env.list(path).Some?
    ensures forall i | 0 <= i < |env.list(path).value| :: NameOk(env.list(path).value[i].name)
  {
    assert NamesAt(env, path);
  }

  lemma {:induction false} LinkedParts(env: Env, mem: Memory, ps: Lists, top: Ptr, z: Levels, cap: nat, block: nat, dev: int)
    requires LinkedState(env, mem, ps, top, z, cap, block, dev)
    ensures Ok(env, z) && |z| > 0 && Whole(mem, ps, top, z) && Blocks(mem, top, block)
    ensures z[0].head.info.D? ==> dev == z[0].head.id.dev
  {
  }

  lemma {:induction false} LinkedGrow(env: Env, mem: Memory, ps: Lists, top: Ptr, z: Levels, cap: nat, cap': nat, block: nat, dev: int)
    requires LinkedState(env, mem, ps, top, z, cap, block, dev) && cap <= cap'
    ensures LinkedState(env, mem, ps, top, z, cap', block, dev) && Fits(z, cap')
  {
    forall k | 0 <= k < |z| ensures LevelFits(z[k], cap') { assert LevelFits(z[k], cap); }
  }

  lemma {:induction false} KidsNone(m0: Memory, mem: Memory, kids: seq<Ptr>, es: seq<Entry>, level: int, parent: Ptr)
    requires Kids(m0, mem, kids, es, level, parent) && es == []
    ensures mem == m0 && First(kids) == Null
  {
  }

  lemma {:induction false} FittingRoom(env: Env, es: seq<Entry>, dir: string, anc: seq<Id>, cap: nat)
    requires Fitting(env, es, dir, anc, cap) && es != []
    ensures |Base(dir)| < cap
  {
    assert ChildOk(env, es[0], dir, anc);
  }

  lemma {:induction false} HeadNotNull(env: Env, mem: Memory, ps: Lists, top: Ptr, z: Levels, cap: nat, block: nat, dev: int)
    requires LinkedState(env, mem, ps, top, z, cap, block, dev)
    ensures Head(ps, top) != Null
  {
    HeadInMemory(mem, ps, top);
  }

  // ----- leaving the current node -----

  ghost predicate SiblingNext(z: Levels) {
    |z| > 1 && z[|z| - 1].rest != []
  }

  lemma {:induction false} DropCurBlocks(mem: Memory, top: Ptr, block: nat, c: Ptr)
    requires Blocks(mem, top, block)
    ensures Blocks(mem - {c}, top, block)
  {
  }

  lemma {:induction false} AdvanceFits(env: Env, z: Levels, cap: nat)
    requires |z| > 0 && Fits(z, cap)
    ensures Fits(Advance(env, z).z, cap)
  {
    var y := Advance(env, z).z;
    assert LevelFits(z[|z| - 1], cap);
    forall k | 0 <= k < |y| ensures LevelFits(y[k], cap) { assert LevelFits(z[k], cap); }
  }

  /** The next sibling becomes current once the current node is freed. */
  lemma {:induction false} SiblingWhole(env: Env, mem: Memory, ps: Lists, top: Ptr, z: Levels)
    requires Whole(mem, ps, top, z) && SiblingNext(z)
    ensures |ps| == |z| && |ps[|ps| - 1]| > 1
    ensures Whole(mem - {ps[|ps| - 1][0]}, DropCur(ps), top, Advance(env, z).z)
  {
    var t := |ps| - 1;
    assert Holds(mem, ps[t], Nodes(z[t]), LoadedOn(t, ps[t]));
    DropCurShape(mem, ps, top);
    DropCurContent(mem, ps, top, z);
    var qs, y := DropCur(ps), Advance(env, z).z;
    var m := mem - {ps[t][0]};
    assert Nodes(y[t]) == z[t].rest;
    forall k | 0 <= k < |qs| ensures Holds(m, qs[k], Nodes(y[k]), LoadedOn(k, qs[k])) {
      if k < t { assert Holds(m, ps[k], Nodes(z[k]), LoadedOn(k, ps[k])); }
    }
  }

  lemma {:induction false} SiblingLinked(env: Env, mem: Memory, ps: Lists, top: Ptr, z: Levels, cap: nat, block: nat, dev: int)
    requires LinkedState(env, mem, ps, top, z, cap, block, dev) && SiblingNext(z)
    ensures LinkedState(env, mem - {Head(ps, top)}, DropCur(ps), top, Advance(env, z).z, cap, block, dev)
  {
    SiblingWhole(env, mem, ps, top, z);
    AdvanceOk(env, z);
    AdvanceFits(env, z, cap);
    DropCurBlocks(mem, top, block, Head(ps, top));
  }

  /** Without a next sibling the parent becomes current once the current node is freed. */
  lemma {:induction false} UpWhole(mem: Memory, ps: Lists, top: Ptr, z: Levels)
    requires Whole(mem, ps, top, z) && |z| > 1 && z[|z| - 1].rest == []
    ensures |ps| == |z| && |ps[|ps| - 1]| == 1 && DropCur(ps) == ps[..|ps| - 1]
    ensures Whole(mem - {ps[|ps| - 1][0]}, DropCur(ps), top, z[..|z| - 1])
  {
    var t := |ps| - 1;
    assert Holds(mem, ps[t], Nodes(z[t]), LoadedOn(t, ps[t]));
    DropCurShape(mem, ps, top);
    DropCurContent(mem, ps, top, z);
    var qs, y := DropCur(ps), z[..t];
    var m := mem - {ps[t][0]};
    forall k | 0 <= k < |qs| ensures Holds(m, qs[k], Nodes(y[k]), LoadedOn(k, qs[k])) {
      assert Holds(m, ps[k], Nodes(z[k]), LoadedOn(k, ps[k]));
    }
  }

  lemma {:induction false} UpLinked(env: Env, mem: Memory, ps: Lists, top: Ptr, z: Levels, cap: nat, block: nat, dev: int)
    requires LinkedState(env, mem, ps, top, z, cap, block, dev) && |z| > 1 && z[|z| - 1].rest == []
    ensures LinkedState(env, mem - {Head(ps, top)}, DropCur(ps), top, z[..|z| - 1], cap, block, dev)
    ensures Cur(z[..|z| - 1]).info.D?
  {
    UpWhole(mem, ps, top, z);
    PrefixOk(env, z);
    DropCurBlocks(mem, top, block, Head(ps, top));
    var y := z[..|z| - 1];
    forall k | 0 <= k < |y| ensures LevelFits(y[k], cap) { assert LevelFits(z[k], cap); }
  }

  /** A root after `fts_load`. */
  function LoadedNode(n: Node, unixPaths: bool, block: nat): Node {
    n.(pathlen := |n.name|, name := if unixPaths then Basename(n.name) else n.name, acc := Block(block), path := block)
  }

  /** The roots `rs`, holding `es`, once the first of them is loaded. */
  lemma {:induction false} RootLinked(env: Env, mem: Memory, rs: seq<Ptr>, top: Ptr, es: seq<Entry>, cap: nat, block: nat)
    requires EnvOk(env) && es != [] && RootsOk(env, es)
    requires Shape(mem, [rs], top) && Live(mem, [rs], top) && Holds(mem, rs, es, 0) && Blocks(mem, top, block)
    requires forall i | 0 <= i < |es| :: |es[i].path| < cap
    ensures rs[0] in mem && mem[rs[0]].name == es[0].path
    ensures LinkedState(env, mem[rs[0] := LoadedNode(mem[rs[0]], env.unixPaths, block)], [rs], top,
                        [Level(Loaded(env, es[0]), es[1..])], cap, block, mem[rs[0]].id.dev)
  {
    var p := rs[0];
    assert RootOk(env, es[0]);
    assert NodeIs(mem[p], es[0], false);
    var m := mem[p := LoadedNode(mem[p], env.unixPaths, block)];
    var z := [Level(Loaded(env, es[0]), es[1..])];
    ShapeFrame(mem, m, [rs], top);
    RootStepOk(env, es);
    assert LevelShape(mem, [rs], top, 0);
    forall i | 0 <= i < |rs| ensures rs[i] in m && NodeIs(m[rs[i]], Nodes(z[0])[i], i < 1) {
      assert NodeIs(mem[rs[i]], es[i], false);
    }
    assert LevelFits(z[0], cap);
  }

  /** After `fts_open`: the dummy node `cur` is linked to the roots `rs`, which hold `es`. */
  ghost predicate OpenedState(env: Env, mem: Memory, cur: Ptr, rs: seq<Ptr>, top: Ptr, es: seq<Entry>, cap: nat, block: nat) {
    && EnvOk(env) && es != [] && RootsOk(env, es)
    && cur in mem && cur != top && cur !in rs && cur != Null && mem[cur].info.Init?
    && Shape(mem - {cur}, [rs], top) && Live(mem - {cur}, [rs], top)
    && mem[cur].link == First(rs)
    && Holds(mem - {cur}, rs, es, 0) && Blocks(mem - {cur}, top, block) && AllQuiet(mem)
    && (forall i | 0 <= i < |es| :: |es[i].path| < cap) && IsPow2(cap)
  }

  /** The user's instruction is taken off the current node. */
  lemma {:induction false} ClearInstr(env: Env, mem: Memory, ps: Lists, top: Ptr, z: Levels, cap: nat, block: nat, dev: int)
    requires LinkedState(env, mem, ps, top, z, cap, block, dev) && Quiet(mem, Head(ps, top))
    ensures Head(ps, top) in mem
    ensures var m := mem[Head(ps, top) := mem[Head(ps, top)].(instr := NoInstr)];
            LinkedState(env, m, ps, top, z, cap, block, dev) && AllQuiet(m)
  {
    CurFacts(env, mem, ps, top, z, cap, block, dev);
    var c := Head(ps, top);
    var m := mem[c := mem[c].(instr := NoInstr)];
    ShapeFrame(mem, m, ps, top);
    forall k | 0 <= k < |ps| ensures Holds(m, ps[k], Nodes(z[k]), LoadedOn(k, ps[k])) {
      assert Holds(mem, ps[k], Nodes(z[k]), LoadedOn(k, ps[k]));
    }
  }

  /** Where the code goes from the current node. */
  lemma {:induction false} NextFacts(env: Env, mem: Memory, ps: Lists, top: Ptr, z: Levels, cap: nat, block: nat, dev: int)
    requires LinkedState(env, mem, ps, top, z, cap, block, dev)
    ensures Head(ps, top) in mem && Head(ps, top) != Null && |ps| == |z|
    ensures var n := mem[Head(ps, top)];
            && (n.link != Null <==> z[|z| - 1].rest != [])
            && Following(n) == Head(DropCur(ps), top) && Following(n) != Head(ps, top)
            && Following(n) in mem
            && mem[Following(n)].level == (if n.link != Null then |z| - 1 else |z| - 2)
            && (n.link == Null && |z| == 1 ==> n.parent == top)
  {
    FollowingIsHead(mem, ps, top);
    DropCurShape(mem, ps, top);
    var t := |ps| - 1;
    OnLevel(mem, ps, top, t, 0);
    assert Holds(mem, ps[t], Nodes(z[t]), LoadedOn(t, ps[t]));
  }

  /** At the end only the roots' parent is left. */
  lemma {:induction false} LastWhole(mem: Memory, ps: Lists, top: Ptr, z: Levels)
    requires Whole(mem, ps, top, z) && |z| == 1 && z[0].rest == []
    ensures mem.Keys == {Head(ps, top), top}
  {
    assert Holds(mem, ps[0], Nodes(z[0]), LoadedOn(0, ps[0]));
    DropCurShape(mem, ps, top);
  }

  lemma {:induction false} ParentPrefix(env: Env, z: Levels)
    requires Ok(env, z) && |z| > 1
    ensures var e := z[|z| - 2].head;
            PathOk(e.path) && e.path <= Cur(z).path && e.info.D? && e.errno == 0
  {
    var t := |z| - 2;
    assert LevelOk(env, z, t) && LevelOk(env, z, t + 1);
    BaseExtends(z[t].head.path);
  }

  lemma {:induction false} ParentNode(mem: Memory, ps: Lists, top: Ptr, z: Levels)
    requires Whole(mem, ps, top, z) && |z| > 1
    ensures |ps| == |z| && ps[|z| - 2] != [] && ps[|z| - 2][0] in mem
    ensures NodeIs(mem[ps[|z| - 2][0]], z[|z| - 2].head, true)
  {
    var t := |z| - 2;
    OnLevel(mem, ps, top, t, 0);
    assert Holds(mem, ps[t], Nodes(z[t]), LoadedOn(t, ps[t]));
    assert NodeIs(mem[ps[t][0]], Nodes(z[t])[0], true);
  }

  /** The buffer under a current node of level above 0 begins with its parent's path. */
  lemma {:induction false} ParentPath(env: Env, mem: Memory, ps: Lists, top: Ptr, z: Levels,
                                      path: seq<char>, block: nat, dev: int, shown: string)
    requires LinkedState(env, mem, ps, top, z, |path|, block, dev) && |z| > 1
    requires Spells(path, shown) && Shows(z, shown)
    ensures var pp := z[|z| - 2].head.path;
            && PathOk(pp) && |pp| < |path| && path[..|pp|] == pp
            && |ps| == |z| && ps[|z| - 2] != [] && ps[|z| - 2][0] in mem
            && mem[ps[|z| - 2][0]].pathlen == |pp| && mem[ps[|z| - 2][0]].errno == 0
    ensures z[|z| - 2].head.info.D? && z[|z| - 2].head.errno == 0
  {
    hide Ok, Whole, Blocks, Fits, PathOk;
    ParentPrefix(env, z);
    ParentNode(mem, ps, top, z);
    var pp := z[|z| - 2].head.path;
    assert path[..|shown|][..|pp|] == path[..|pp|];
  }

  lemma {:induction false} ShowsCur(z: Levels)
    requires |z| > 0
    ensures Shows(z, Cur(z).path)
  {
  }

  /** The current node below level 0, its parent and its path. */
  lemma {:induction false} CurSibling(env: Env, mem: Memory, ps: Lists, top: Ptr, z: Levels, cap: nat, block: nat, dev: int)
    requires LinkedState(env, mem, ps, top, z, cap, block, dev) && |z| > 1
    ensures |ps| == |z| && Head(ps, top) in mem && ps[|z| - 2] != [] && mem[Head(ps, top)].parent == ps[|z| - 2][0]
    ensures ps[|z| - 2][0] in mem && mem[ps[|z| - 2][0]].pathlen == |z[|z| - 2].head.path|
    ensures '\0' !in mem[Head(ps, top)].name
    ensures Cur(z).path == Base(z[|z| - 2].head.path) + mem[Head(ps, top)].name && |Cur(z).path| < cap
  {
    CurFacts(env, mem, ps, top, z, cap, block, dev);
    OnLevel(mem, ps, top, |ps| - 1, 0);
    ParentNode(mem, ps, top, z);
    assert LevelOk(env, z, |z| - 1);
  }

  lemma {:induction false} RootNames(env: Env, es: seq<Entry>)
    requires RootsOk(env, es) && es != []
    ensures '\0' !in es[0].path && Loaded(env, es[0]).path == es[0].path
  {
    assert RootOk(env, es[0]);
  }

  lemma {:induction false} UpParent(env: Env, mem: Memory, ps: Lists, top: Ptr, z: Levels, cap: nat, block: nat, dev: int)
    requires LinkedState(env, mem, ps, top, z, cap, block, dev) && |z| > 1 && z[|z| - 1].rest == []
    ensures |ps| == |z| && ps[|z| - 2] != [] && Head(DropCur(ps), top) == ps[|z| - 2][0]
  {
    UpWhole(mem, ps, top, z);
    ParentNode(mem, ps, top, z);
  }

  lemma {:induction false} RootsBehind(env: Env, mem: Memory, ps: Lists, top: Ptr, z: Levels, cap: nat, block: nat, dev: int)
    requires LinkedState(env, mem, ps, top, z, cap, block, dev) && |z| == 1 && z[0].rest != []
    ensures |ps| == 1 && |ps[0]| > 1 && Head(ps, top) == ps[0][0] && Head(ps, top) in mem && Head(ps, top) != top
    ensures var m := mem - {Head(ps, top)}; var rs := ps[0][1..];
            && mem[Head(ps, top)].link == rs[0]
            && Shape(m, [rs], top) && Live(m, [rs], top) && Holds(m, rs, z[0].rest, 0) && Blocks(m, top, block)
    ensures EnvOk(env) && RootsOk(env, z[0].rest)
    ensures forall i | 0 <= i < |z[0].rest| :: |z[0].rest[i].path| < cap
  {
    assert Holds(mem, ps[0], Nodes(z[0]), LoadedOn(0, ps[0]));
    DropCurShape(mem, ps, top);
    DropCurContent(mem, ps, top, z);
    assert DropCur(ps) == [ps[0][1..]];
    assert LevelOk(env, z, 0);
    assert LevelFits(z[0], cap);
  }

  lemma {:induction false} BufferHolds(path: seq<char>, dir: string)
    requires |Base(dir)| <= |path| && path[..|Base(dir)|] == Base(dir)
    ensures |dir| <= |Base(dir)| && path[..|dir|] == dir
  {
    BaseExtends(dir);
    assert path[..|Base(dir)|][..|dir|] == path[..|dir|];
  }

  lemma {:induction false} DirFacts(env: Env, mem: Memory, ps: Lists, top: Ptr, z: Levels, cap: nat, block: nat, dev: int)
    requires LinkedState(env, mem, ps, top, z, cap, block, dev) && |z| > 0 && Cur(z).info.D?
    ensures Head(ps, top) in mem && mem[Head(ps, top)].errno == 0 && Cur(z).errno == 0 && EnvOk(env)
    ensures mem[Head(ps, top)].id.dev == Cur(z).id.dev && dev == z[0].head.id.dev
    ensures PathOk(Cur(z).path) && |z| > 0
  {
    CurFacts(env, mem, ps, top, z, cap, block, dev);
  }

  lemma {:induction false} SkipLinked(env: Env, mem: Memory, ps: Lists, top: Ptr, z: Levels, cap: nat, block: nat, dev: int)
    requires LinkedState(env, mem, ps, top, z, cap, block, dev) && Quiet(mem, Head(ps, top))
    ensures Head(ps, top) in mem
    ensures var m := mem[Head(ps, top) := mem[Head(ps, top)].(instr := SkipInstr)];
            LinkedState(env, m, ps, top, z, cap, block, dev) && Quiet(m, Head(ps, top))
  {
    CurFacts(env, mem, ps, top, z, cap, block, dev);
    var c := Head(ps, top);
    var m := mem[c := mem[c].(instr := SkipInstr)];
    ShapeFrame(mem, m, ps, top);
    forall k | 0 <= k < |ps| ensures Holds(m, ps[k], Nodes(z[k]), LoadedOn(k, ps[k])) {
      assert Holds(mem, ps[k], Nodes(z[k]), LoadedOn(k, ps[k]));
    }
  }

  lemma {:induction false} OpenedFacts(env: Env, mem: Memory, cur: Ptr, ps: Lists, top: Ptr, es: seq<Entry>, cap: nat, block: nat)
    requires |ps| == 1 && OpenedState(env, mem, cur, ps[0], top, es, cap, block)
    ensures cur in mem && Shape(mem - {cur}, ps, top) && Live(mem - {cur}, ps, top)
    ensures Following(mem[cur]) == Head(ps, top)
  {
    assert ps == [ps[0]];
    OnLevel(mem - {cur}, ps, top, 0, 0);
  }

  /** The loop of `fts_close`, from the current node of `ps` or from a dummy node before it. */
  method FreeFrom(m: Memory, p0: Ptr, ghost ps: Lists, ghost top: Ptr, ghost dummy: bool) returns (r: Memory)
    requires dummy ==> p0 in m && Shape(m - {p0}, ps, top) && Live(m - {p0}, ps, top) && Following(m[p0]) == Head(ps, top)
    requires !dummy ==> Shape(m, ps, top) && Live(m, ps, top) && p0 == Head(ps, top)
    ensures r == if dummy && m[p0].level < 0 then m - {p0} else map[]
  {
    r := m;
    var p := p0;
    ghost var first, todo := dummy, ps;
    if !dummy { HeadInMemory(m, ps, top); }
    while r[p].level >= 0
      invariant p in r && (first ==> r == m && p == p0 && todo == ps && dummy)
      invariant !first ==> Shape(r, todo, top) && Live(r, todo, top) && p == Head(todo, top) && r[p].level == |todo| - 1
      invariant !first ==> !dummy || m[p0].level >= 0
      decreases |r|
    {
      if first { HeadInMemory(r - {p}, todo, top); } else { FollowingIsHead(r, todo, top); }
      var freep := p;
      p := if r[p].link != Null then r[p].link else r[p].parent;
      r := r - {freep};
      if !first { todo := DropCur(todo); }
      first := false;
    }
    r := r - {p};
  }

  // ----- fts_open -----

  /** Only the roots `rs`, holding `es`, and their parent `top` are allocated. */
  ghost predicate RootsSoFar(mem: Memory, top: Ptr, rs: seq<Ptr>, es: seq<Entry>, block: nat) {
    && top in mem && mem[top].level == -1 && Null !in mem
    && ListShape(mem, rs, 0, top) && Holds(mem, rs, es, 0)
    && (forall q | q in mem :: q == top || q in rs)
    && AllQuiet(mem) && Blocks(mem, top, block)
  }

  /** A root that was just made. */
  ghost predicate NewRoot(m0: Memory, m1: Memory, top: Ptr, p: Ptr, e: Entry, block: nat) {
    && p != Null && p !in m0 && p in m1 && m1 == m0[p := m1[p]]
    && m1[p].level == 0 && m1[p].parent == top && m1[p].instr.NoInstr?
    && NodeIs(m1[p], e, false) && InBlock(m1[p], block)
  }

  /** With a comparator, a new root goes to the front of the list. */
  lemma {:induction false} PrependRoot(m0: Memory, m1: Memory, top: Ptr, rs: seq<Ptr>, es: seq<Entry>, p: Ptr, e: Entry, block: nat)
    requires RootsSoFar(m0, top, rs, es, block) && NewRoot(m0, m1, top, p, e, block)
    ensures RootsSoFar(m1[p := m1[p].(link := First(rs))], top, [p] + rs, [e] + es, block)
  {
    var m := m1[p := m1[p].(link := First(rs))];
    var l := [p] + rs;
    forall i | 0 <= i < |rs| ensures rs[i] in m0 && rs[i] != p { assert NodeShape(m0, rs, 0, top, i); }
    assert Distinct(l);
    forall i | 0 <= i < |l| ensures NodeShape(m, l, 0, top, i) {
      if i > 0 { assert NodeShape(m0, rs, 0, top, i - 1); }
    }
    forall i | 0 <= i < |l| ensures l[i] in m && NodeIs(m[l[i]], ([e] + es)[i], i < 0) {
      if i > 0 { assert NodeIs(m0[rs[i - 1]], es[i - 1], i - 1 < 0); }
    }
    forall q | q in m ensures q == top || q in l {
      if q != p && q != top {
        var i :| 0 <= i < |rs| && rs[i] == q;
        assert l[i + 1] == q;
      } else {
        assert l[0] == p;
      }
    }
  }

  lemma {:induction false} AppendHolds(m0: Memory, m: Memory, rs: seq<Ptr>, es: seq<Entry>, p: Ptr, e: Entry)
    requires Holds(m0, rs, es, 0) && p in m && NodeIs(m[p], e, false)
    requires forall i | 0 <= i < |rs| :: rs[i] in m && rs[i] in m0 && m[rs[i]] == m0[rs[i]].(link := m[rs[i]].link)
    ensures Holds(m, rs + [p], es + [e], 0)
  {
    var l := rs + [p];
    forall i | 0 <= i < |l| ensures l[i] in m && NodeIs(m[l[i]], (es + [e])[i], i < 0) {
      if i < |rs| { assert NodeIs(m0[rs[i]], es[i], i < 0); }
    }
  }

  lemma {:induction false} AppendOnly(m0: Memory, m: Memory, top: Ptr, rs: seq<Ptr>, p: Ptr)
    requires (forall q | q in m0 :: q == top || q in rs) && m.Keys == m0.Keys + {p}
    ensures forall q | q in m :: q == top || q in rs + [p]
  {
    forall q | q in m ensures q == top || q in rs + [p] {
      assert (rs + [p])[|rs|] == p;
      if q in rs { var i :| 0 <= i < |rs| && rs[i] == q; assert (rs + [p])[i] == q; }
    }
  }

  /** Without one, it goes to the end. */
  lemma {:induction false} AppendRoot(m0: Memory, m1: Memory, top: Ptr, rs: seq<Ptr>, es: seq<Entry>, p: Ptr, e: Entry, block: nat)
    requires RootsSoFar(m0, top, rs, es, block) && NewRoot(m0, m1, top, p, e, block)
    ensures rs != [] ==> rs[|rs| - 1] in m1
    ensures RootsSoFar(Hang(m1[p := m1[p].(link := Null)], rs, p), top, rs + [p], es + [e], block)
  {
    hide Holds, ListShape;
    var m2 := m1[p := m1[p].(link := Null)];
    assert m2 == m0[p := m2[p]];
    HangShape(m0, m2, rs, 0, top, p);
    RootsIn(m0, top, rs);
    var m := Hang(m2, rs, p);
    AppendHolds(m0, m, rs, es, p, e);
    AppendOnly(m0, m, top, rs, p);
  }

  lemma {:induction false} RootsIn(mem: Memory, top: Ptr, rs: seq<Ptr>)
    requires ListShape(mem, rs, 0, top) && top in mem && mem[top].level == -1
    ensures forall i | 0 <= i < |rs| :: rs[i] in mem && rs[i] != top
  {
    forall i | 0 <= i < |rs| ensures rs[i] in mem && rs[i] != top { assert NodeShape(mem, rs, 0, top, i); }
  }

  lemma {:induction false} SortedRoots(m: Memory, r: Memory, top: Ptr, rs: seq<Ptr>, es: seq<Entry>,
                                       l: seq<Ptr>, es': seq<Entry>, block: nat)
    requires RootsSoFar(m, top, rs, es, block) && Relinked(m, r, l, |l|) && SameNodes(rs, l)
    requires ListShape(r, l, 0, top) && Holds(r, l, es', 0)
    ensures RootsSoFar(r, top, l, es', block)
  {
    RelinkedSame(m, r, l);
    forall q | q in r ensures q == top || q in l {
      if q != top { var i :| 0 <= i < |rs| && rs[i] == q; }
    }
  }

  lemma {:induction false} OpenedFrom(env: Env, m0: Memory, m1: Memory, cur: Ptr, top: Ptr, rs: seq<Ptr>, es: seq<Entry>, cap: nat, block: nat)
    requires EnvOk(env) && es != [] && RootsOk(env, es) && RootsSoFar(m0, top, rs, es, block)
    requires cur != Null && cur !in m0 && cur in m1 && m1 == m0[cur := m1[cur]]
    requires m1[cur].info.Init? && m1[cur].link == First(rs) && m1[cur].instr.NoInstr?
    requires (forall i | 0 <= i < |es| :: |es[i].path| < cap) && IsPow2(cap)
    ensures OpenedState(env, m1, cur, rs, top, es, cap, block)
  {
    assert m1 - {cur} == m0;
    forall i | 0 <= i < |rs| ensures rs[i] in m0 && m0[rs[i]].level == 0 { assert NodeShape(m0, rs, 0, top, i); }
    assert LevelShape(m0, [rs], top, 0);
  }

  lemma {:induction false} NoRoots(mem: Memory, top: Ptr, block: nat)
    requires top in mem && mem[top].level == -1 && Null !in mem && AllQuiet(mem) && mem.Keys == {top}
    ensures RootsSoFar(mem, top, [], [], block)
  {
  }

  lemma {:induction false} NewRootIn(m0: Memory, m1: Memory, top: Ptr, p: Ptr, e: Entry, block: nat)
    requires NewRoot(m0, m1, top, p, e, block)
    ensures p in m1 && p != Null
  {
  }

  lemma {:induction false} OnlyParent(mem: Memory, top: Ptr, rs: seq<Ptr>, es: seq<Entry>, block: nat)
    requires RootsSoFar(mem, top, rs, es, block)
    ensures top in mem && |rs| == |es| && (es == [] ==> mem.Keys == {top})
  {
  }

  lemma {:induction false} FirstNotNull(mem: Memory, top: Ptr, rs: seq<Ptr>, es: seq<Entry>, block: nat)
    requires RootsSoFar(mem, top, rs, es, block)
    ensures First(rs) == Null <==> rs == []
  {
    if rs != [] { assert NodeShape(mem, rs, 0, top, 0); }
  }

  lemma {:induction false} ReverseSnoc<T>(s: seq<T>, x: T)
    ensures Reverse(s + [x]) == [x] + Reverse(s)
  {
    assert (s + [x])[..|s|] == s;
  }

  lemma {:induction false} RootsNil(env: Env, args: seq<string>)
    ensures Roots(env, args[..0]) == [] && Reverse(Roots(env, args[..0])) == []
  {
  }

  lemma {:induction false} RootsSnoc(env: Env, args: seq<string>, i: nat)
    requires i < |args|
    ensures Roots(env, args[..i + 1]) == Roots(env, args[..i]) + [RootEntry(env, args[i])]
    ensures Reverse(Roots(env, args[..i + 1])) == [RootEntry(env, args[i])] + Reverse(Roots(env, args[..i]))
  {
    assert Roots(env, args[..i + 1]) == Roots(env, args[..i]) + [RootEntry(env, args[i])];
    ReverseSnoc(Roots(env, args[..i]), RootEntry(env, args[i]));
  }

  lemma {:induction false} RootListIs(env: Env, args: seq<string>)
    requires EnvOk(env)
    ensures RootList(env, args) == Arrange(env, if env.sorted then Reverse(Roots(env, args)) else Roots(env, args))
  {
  }

  lemma {:induction false} RootPaths(env: Env, args: seq<string>, cap: nat)
    requires EnvOk(env) && forall i | 0 <= i < |args| :: |args[i]| < cap
    ensures forall i | 0 <= i < |RootList(env, args)| :: |RootList(env, args)[i].path| < cap
  {
    hide EnvOk, RootList;
    forall i | 0 <= i < |RootList(env, args)| ensures |RootList(env, args)[i].path| < cap {
      var j := RootIs(env, args, i);
    }
  }

  /** The longest argument with its NUL. */
  function Longest(args: seq<string>): (n: nat)
    ensures forall i | 0 <= i < |args| :: |args[i]| < n
  {
    if args == [] then 1 else
      var last := |args| - 1;
      var n := Longest(args[..last]);
      assert forall i | 0 <= i < last :: args[i] == args[..last][i];
      if |args[last]| >= n then |args[last]| + 1 else n
  }

  /** `fts_maxarglen`. */
  method MaxArgLen(args: seq<string>) returns (n: nat)
    ensures n == Longest(args)
  {
    var max := 0;
    for i := 0 to |args|
      invariant max + 1 == Longest(args[..i])
    {
      assert args[..i + 1][..i] == args[..i];
      if |args[i]| > max { max := |args[i]|; }
    }
    assert args[..|args|] == args;
    n := max + 1;
  }

  /** The size of the buffer that `fts_open` starts with. */
  function FirstRoom(args: seq<string>): nat {
    Pow2Ceil(if Longest(args) < MAXPATHLEN then MAXPATHLEN else Longest(args))
  }

  /** `fts_lfree` on the list of the roots. */
  method FreeRoots(m: Memory, head: Ptr, ghost rs: seq<Ptr>, ghost es: seq<Entry>, ghost top: Ptr, ghost block: nat)
    returns (r: Memory)
    requires RootsSoFar(m, top, rs, es, block) && head == First(rs)
    ensures r.Keys == {top}
  {
    r := m;
    var p := head;
    ghost var l := rs;
    FirstNotNull(m, top, rs, es, block);
    while p != Null
      invariant p == First(l) && ListShape(r, l, 0, top) && (l != [] ==> p != Null)
      invariant top in r && r[top].level == -1 && forall q | q in r :: q == top || q in l
      decreases |r|
    {
      assert NodeShape(r, l, 0, top, 0);
      if |l| > 1 { assert NodeShape(r, l, 0, top, 1); }
      TailShape(r, l, 0, top);
      var next := r[p].link;
      r := r - {p};
      forall q | q in r ensures q == top || q in l[1..] {
        if q != top { var i :| 0 <= i < |l| && l[i] == q; assert l[1..][i - 1] == q; }
      }
      l := l[1..];
      p := next;
    }
  }

  lemma {:induction false} CurLevel(env: Env, mem: Memory, ps: Lists, top: Ptr, z: Levels, cap: nat, block: nat, dev: int)
    requires LinkedState(env, mem, ps, top, z, cap, block, dev)
    ensures Head(ps, top) in mem && mem[Head(ps, top)].level == |z| - 1
  {
    HeadInMemory(mem, ps, top);
  }

  class Fts {
    const env: Env

    const realloc: Realloc

    var mem: Memory
    var cur: Ptr
    var path: seq<char>
    var block: nat
    var dev: int

    ghost var top: Ptr
    ghost var ps: Lists
    ghost var z: Levels
    ghost var shown: string

    constructor (env: Env, realloc: Realloc)
      ensures this.env == env && this.realloc == realloc && mem == map[]
    {
      this.env, this.realloc := env, realloc;
      mem, cur, path, block, dev := map[], Null, [], 0, 0;
      top, ps, z, shown := Null, [], [], [];
    }

    function Buf(): Buffer
      reads this`path, this`block
    {
      Buffer(|path|, block)
    }

    // ----- memory -----

    /** `fts_alloc`: only the fields that the contract mentions are initialised. */
    method Alloc(name: string) returns (p: Ptr)
      modifies this`mem
      ensures p != Null && p !in old(mem) && p in mem && mem == old(mem)[p := mem[p]]
      ensures mem[p].name == name && mem[p].errno == 0 && mem[p].instr.NoInstr? && mem[p].path == block
    {
      ghost var q := FreshAddress(mem.Keys);
      assert q != Null && q !in mem;
      p :| p != Null && p !in mem;
      mem := mem[p := Node(Null, Null, 0, name, Init, NO_ID, 0, 0, 0, NoInstr, block, OwnName, Null)];
    }

    method Free(p: Ptr)
      requires p in mem
      modifies this`mem
      ensures mem == old(mem) - {p}
    {
      mem := mem - {p};
    }

    /** `fts_palloc`: a larger block with the old characters, perhaps elsewhere. */
    method Palloc(size: nat) returns (moved: bool)
      requires |path| <= size
      modifies this`path, this`block
      ensures |path| == Pow2Ceil(size) && path[..|old(path)|] == old(path)
      ensures moved == realloc.moves(|path|) && block == old(block) + (if moved then 1 else 0)
    {
      var room := Pow2Ceil(size);
      path := path + seq(room - |path|, _ => '?');
      moved := realloc.moves(room);
      if moved { block := block + 1; }
    }

    // ----- stat -----

    /** The string that `p->fts_accpath` points to. */
    function Target(n: Node): string
      reads this`path, this`block
    {
      if n.acc.OwnName? then n.name else if n.acc.b == block then CString(path) else realloc.stale(n.acc.b)
    }

    /** The search for a cycle: the nearest ancestor with the identity `id`, or NULL. */
    method FindCycle(parent: Ptr, id: Id, ghost qs: Lists, ghost anc: seq<Id>) returns (c: Ptr)
      requires Shape(mem, qs, top) && Ids(mem, qs, anc)
      requires parent == Up(qs, |qs|, top)
      ensures c == Null <==> id !in anc
      ensures c != Null ==> c in mem && mem[c].id == id && 0 <= mem[c].level < |qs| && c == qs[mem[c].level][0]
    {
      var t := parent;
      ghost var k := |qs|;
      if k > 0 { OnLevel(mem, qs, top, k - 1, 0); }
      while mem[t].level >= 0
        invariant 0 <= k <= |qs| && t == Up(qs, k, top) && t in mem && mem[t].level == k - 1
        invariant forall j | k <= j < |qs| :: anc[j] != id
        decreases k
      {
        OnLevel(mem, qs, top, k - 1, 0);
        if id == mem[t].id {
          assert id == anc[k - 1];
          return t;
        }
        t := mem[t].parent;
        k := k - 1;
        if k > 0 { OnLevel(mem, qs, top, k - 1, 0); }
      }
      c := Null;
    }

    /** `fts_stat` on the node `p`, whose ancestors have the identities `anc`. */
    method StatNode(p: Ptr, follow: bool, ghost qs: Lists, ghost anc: seq<Id>)
      requires p in mem && Shape(mem, qs, top) && Ids(mem, qs, anc)
      requires mem[p].parent == Up(qs, |qs|, top)
      modifies this`mem
      ensures var e := Statted(env, Target(old(mem)[p]), old(mem)[p].name, anc, follow);
              && p in mem && mem == old(mem)[p := Restat(old(mem)[p], e, mem[p].cycle)]
              && if e.info.DC? then mem[p].cycle in old(mem) && old(mem)[mem[p].cycle].id == e.id && IsAbove(qs, mem[p].cycle)
                 else mem[p].cycle == old(mem)[p].cycle
    {
      var n := mem[p];
      var s := Target(n);
      var st := if env.logical || follow then env.stat(s) else env.lstat(s);
      match st
      case Failed(err) =>
        if (env.logical || follow) && env.lstat(s).Found? {
          mem := mem[p := n.(info := SLNone)];
        } else {
          mem := mem[p := n.(info := NS, errno := err)];
        }
      case Found(ModeDir, id, nlink) =>
        var info, cycle := Dot, n.cycle;
        if !IsDot(n.name) {
          var t := FindCycle(n.parent, id, qs, anc);
          if t != Null {
            info, cycle := DC, t;
          } else {
            info := D;
          }
        }
        mem := mem[p := n.(info := info, id := id, nlink := nlink, cycle := cycle)];
      case Found(ModeLink, _, _) => mem := mem[p := n.(info := SL)];
      case Found(ModeRegular, _, _) => mem := mem[p := n.(info := F)];
      case Found(ModeOther, _, _) => mem := mem[p := n.(info := Default)];
    }

    // ----- the path buffer -----

    /** The part of `fts_read` labelled `name`: the path of `p` below the path `pp`. */
    method PutName(p: Ptr, ghost pp: string)
      requires p in mem && mem[p].parent in mem && mem[mem[p].parent].pathlen == |pp|
      requires PathOk(pp) && |pp| < |path| && path[..|pp|] == pp
      requires |Base(pp)| + |mem[p].name| < |path| && '\0' !in mem[p].name
      modifies this`path
      ensures |path| == |old(path)| && Spells(path, Base(pp) + mem[p].name)
    {
      var pathlen := mem[mem[p].parent].pathlen;
      NAppendIsBase(path, pp);
      BaseExtends(pp);
      var t := NAppend(path, pathlen);
      if path[pathlen - 1] != ':' {
        path := path[t := '/'];
        t := t + 1;
      }
      assert path[..t] == Base(pp);
      path := PutString(path, t, mem[p].name);
    }

    /** `fts_load`: the root `p` becomes the start of a traversal. */
    method Load(p: Ptr)
      requires p in mem && |mem[p].name| < |path| && '\0' !in mem[p].name
      modifies this`mem, this`path, this`dev
      ensures var n := old(mem)[p];
              mem == old(mem)[p := n.(pathlen := |n.name|, name := if env.unixPaths then Basename(n.name) else n.name,
                                      acc := Block(block), path := block)]
      ensures dev == old(mem)[p].id.dev && |path| == |old(path)| && Spells(path, old(mem)[p].name)
    {
      var n := mem[p];
      path := PutString(path, 0, n.name);
      mem := mem[p := n.(pathlen := |n.name|, name := if env.unixPaths then Basename(n.name) else n.name,
                         acc := Block(block), path := block)];
      dev := n.id.dev;
    }

    /** `fts_padjust`: after the block moved, every node but the roots' parent is reached
        through "fts_link, else fts_parent" and made to point into the new block. */
    method Padjust(head: Ptr, ghost qs: Lists)
      requires Shape(mem, qs, top) && Live(mem, qs, top) && head == Head(qs, top)
      modifies this`mem
      ensures Adjusted(old(mem), mem, map[top := old(mem)[top]], block)
    {
      mem := AdjustAll(mem, head, block, qs, top);
    }

    // ----- reading a directory -----

    /** `fts_build` is reading the current directory: the buffer holds what comes before a
        child's name, `len` characters. */
    ghost predicate Reading(len: nat)
      reads this
    {
      && Ok(env, z) && |z| > 0 && Cur(z).info.D?
      && Shape(mem, ps, top) && Content(mem, ps, z) && cur == Head(ps, top)
      && len == |Base(Cur(z).path)| <= |path| && path[..len] == Base(Cur(z).path)
    }

    lemma {:induction false} HeadIds()
      requires Shape(mem, ps, top) && Content(mem, ps, z) && Ok(env, z) && |z| > 0 && Cur(z).info.D?
      ensures Ids(mem, ps, Anc(z, |z|))
    {
      forall k | 0 <= k < |ps| ensures ps[k][0] in mem && mem[ps[k][0]].id == Anc(z, |z|)[k] {
        assert Holds(mem, ps[k], Nodes(z[k]), LoadedOn(k, ps[k]));
        assert NodeIs(mem[ps[k][0]], z[k].head, true);
      }
    }

    /** The node for the name `name`, with room for its path in the buffer. */
    method NewChild(name: string, len: nat) returns (p: Ptr, moved: bool)
      requires Reading(len) && '\0' !in name
      modifies this`mem, this`path, this`block
      ensures p != Null && p !in old(mem) && p in mem && mem == old(mem)[p := mem[p]]
      ensures var n := mem[p];
              && n.level == |z| && n.parent == cur && n.link == Null && n.instr.NoInstr? && n.name == name
              && n.pathlen == len + |name| && n.errno == 0 && n.path == old(block) && n.acc == Block(old(block))
      ensures |old(path)| <= |path| && path[..len] == old(path)[..len] && len + |name| < |path|
      ensures Buf() == Grown(realloc, old(Buf()), len + |name|) && moved == Moves(realloc, |old(path)|, len + |name|)
    {
      HeadInMemory(mem, ps, top);
      p := Alloc(name);
      moved := false;
      if |name| >= |path| - len {
        moved := Palloc(|name| + len + 1);
      }
      mem := mem[p := mem[p].(level := mem[cur].level + 1, pathlen := len + |name|, parent := cur, link := Null,
                              acc := Block(mem[p].path))];
    }

    /** The name goes into the buffer for `fts_stat`, which finds it there if the node
        points into the current block. */
    method StatChild(p: Ptr, len: nat, ghost old_: Memory) returns (ghost s: string)
      requires Ok(env, z) && |z| > 0 && Shape(old_, ps, top) && Ids(old_, ps, Anc(z, |z|))
      requires p != Null && p !in old_ && p in mem && mem == old_[p := mem[p]] && mem[p].acc.Block?
      requires mem[p].parent == Head(ps, top)
      requires len + |mem[p].name| < |path| && '\0' !in path[..len] && '\0' !in mem[p].name
      modifies this`mem, this`path
      ensures |path| == |old(path)| && path[..len] == old(path)[..len]
      ensures p in mem && mem == old(mem)[p := Restat(old(mem)[p], Statted(env, s, old(mem)[p].name, Anc(z, |z|), false), mem[p].cycle)]
      ensures s == if old(mem)[p].acc.b == block then path[..len] + old(mem)[p].name else realloc.stale(old(mem)[p].acc.b)
    {
      var name := mem[p].name;
      path := PutString(path, len, name);
      ExtendShape(old_, mem, ps, top, [p]);
      s := Target(mem[p]);
      SpellsIsCString(path, path[..len] + name);
      StatNode(p, false, ps, Anc(z, |z|));
    }

    /** One turn of the loop in `fts_build`: a node for the directory entry `d`.  When the
        buffer moved to make room for this very name, `fts_stat` still follows the pointer
        into the old block. */
    method AddEntry(d: Dirent, nlinks: int, len: nat) returns (p: Ptr, e: Entry, nlinks': int, moved: bool)
      requires Reading(len) && NameOk(d.name)
      modifies this`mem, this`path, this`block
      ensures NewNode(old(mem), mem, p, |z|, cur)
      ensures NodeIs(mem[p], e, true) && e.name == d.name
      ensures ChildOk(env, e, Cur(z).path, Anc(z, |z|))
      ensures |old(path)| <= |path| && path[..len] == old(path)[..len] && len + |d.name| < |path|
      ensures Buf() == Grown(realloc, old(Buf()), len + |d.name|) && moved == Moves(realloc, |old(path)|, len + |d.name|)
      ensures !moved ==> InBlock(mem[p], block)
      ensures e == EntryBuilt(env, realloc, Base(Cur(z).path), Anc(z, |z|), nlinks, old(Buf()), d)
      ensures nlinks' == LinksAfter(env, nlinks, d.dtype, e.info)
    {
      hide Roomy, Pow2Ceil, IsPow2, ChildOk, Statted;
      EntryBuiltOk(env, realloc, Cur(z).path, Anc(z, |z|), nlinks, Buf(), d);
      ghost var base := Base(Cur(z).path);
      assert '\0' !in base by { BaseExtends(Cur(z).path); assert LevelOk(env, z, |z| - 1); }
      HeadIds();
      p, moved := NewChild(d.name, len);
      nlinks' := nlinks;
      if SkipsStat(env, nlinks, d.dtype) {
        mem := mem[p := mem[p].(info := NSOK)];
      } else {
        ghost var n := mem[p];
        ghost var s := StatChild(p, len, old(mem));
        RestatView(n, env, s, Anc(z, |z|), false, mem[p].cycle, base + d.name);
        if nlinks > 0 && IsDirectory(mem[p].info) { nlinks' := nlinks - 1; }
      }
      e := View(mem[p], path[..len] + d.name);
    }

    /** A new node hung behind the last one of the list built so far. */
    method AddChild(d: Dirent, nlinks: int, len: nat, head: Ptr, tail: Ptr, ghost m0: Memory,
                    ghost kids: seq<Ptr>, ghost es: seq<Entry>)
      returns (p: Ptr, e: Entry, nlinks': int, moved: bool, head': Ptr)
      requires Reading(len) && NameOk(d.name)
      requires Shape(m0, ps, top) && Content(m0, ps, z) && Kids(m0, mem, kids, es, |z|, cur)
      requires head == First(kids) && tail == Last(kids)
      modifies this`mem, this`path, this`block
      ensures Reading(len) && Kids(m0, mem, kids + [p], es + [e], |z|, cur)
      ensures head' == First(kids + [p]) && e.name == d.name
      ensures ChildOk(env, e, Cur(z).path, Anc(z, |z|))
      ensures |old(path)| <= |path| && len + |d.name| < |path|
      ensures Buf() == Grown(realloc, old(Buf()), len + |d.name|) && block == old(block) + (if moved then 1 else 0)
      ensures InBlocks(old(mem), kids, old(block)) && !moved ==> InBlocks(mem, kids + [p], block)
      ensures e == EntryBuilt(env, realloc, Base(Cur(z).path), Anc(z, |z|), nlinks, old(Buf()), d)
      ensures nlinks' == LinksAfter(env, nlinks, d.dtype, e.info)
    {
      hide EntryBuilt, Roomy, Moves, SkipsStat, LinksAfter, ChildOk, InBlocks, NameOk, Holds;
      p, e, nlinks', moved := AddEntry(d, nlinks, len);
      HangKids(m0, old(mem), mem, kids, es, |z|, cur, p, e);
      ghost var m := Hang(mem, kids, p);
      head' := head;
      if head == Null {
        head' := p;
      } else {
        mem := mem[tail := mem[tail].(link := p)];
      }
      assert mem == m;
      ExtendShape(m0, m, ps, top, kids + [p]);
      ExtendContent(m0, m, ps, z, kids + [p]);
    }

    /** The loop of `fts_build`: new nodes `kids` for the visible directory entries. */
    method ScanDir(ds: seq<Dirent>, nlinks0: int, len: nat)
      returns (head: Ptr, es: seq<Entry>, doadjust: bool, ghost kids: seq<Ptr>)
      requires Reading(len) && forall i | 0 <= i < |ds| :: NameOk(ds[i].name)
      modifies this`mem, this`path, this`block
      ensures Reading(len) && |old(path)| <= |path| && head == First(kids)
      ensures Kids(old(mem), mem, kids, es, |z|, cur)
      ensures Fitting(env, es, Cur(z).path, Anc(z, |z|), |path|)
      ensures doadjust <==> block != old(block)
      ensures !doadjust ==> InBlocks(mem, kids, block)
      ensures es == Built(env, realloc, Base(Cur(z).path), Anc(z, |z|), nlinks0, old(Buf()), ds)
      ensures Buf() == Room(env, realloc, Base(Cur(z).path), old(Buf()), ds)
      ensures es == [] ==> !doadjust
    {
      hide Built, Room, Kids, Fitting, InBlocks, EntryBuilt, LinksAfter, Grown, Moves;
      KidsEmpty(env, mem, |z|, cur, Cur(z).path, Anc(z, |z|), |path|, block);
      var nlinks, i, tail := nlinks0, 0, Null;
      head, es, doadjust, kids := Null, [], false, [];
      ghost var all := Built(env, realloc, Base(Cur(z).path), Anc(z, |z|), nlinks0, Buf(), ds);
      ghost var room := Room(env, realloc, Base(Cur(z).path), Buf(), ds);
      assert ds[0..] == ds;
      while i < |ds|
        invariant 0 <= i <= |ds| && Reading(len) && |old(path)| <= |path|
        invariant head == First(kids) && tail == Last(kids)
        invariant Kids(old(mem), mem, kids, es, |z|, cur)
        invariant Fitting(env, es, Cur(z).path, Anc(z, |z|), |path|)
        invariant block >= old(block) && (doadjust <==> block != old(block))
        invariant !doadjust ==> InBlocks(mem, kids, block)
        invariant es + Built(env, realloc, Base(Cur(z).path), Anc(z, |z|), nlinks, Buf(), ds[i..]) == all
        invariant Room(env, realloc, Base(Cur(z).path), Buf(), ds[i..]) == room
        invariant es == [] ==> !doadjust
      {
        BuiltOne(env, realloc, Base(Cur(z).path), Anc(z, |z|), nlinks, Buf(), ds, i, es);
        if !Hidden(env, ds[i]) {
          ghost var cap := |path|;
          var p, e, moved;
          p, e, nlinks, moved, head := AddChild(ds[i], nlinks, len, head, tail, old(mem), kids, es);
          doadjust := doadjust || moved;
          FittingAppend(env, es, Cur(z).path, Anc(z, |z|), cap, e, |path|);
          tail, es, kids := p, es + [e], kids + [p];
        }
        i := i + 1;
      }
      BuiltNone(env, realloc, Base(Cur(z).path), Anc(z, |z|), nlinks, Buf(), ds[i..]);
    }

    // ----- the states of a walk -----

    /** Between two reads. */
    ghost predicate Walking()
      reads this
    {
      WalkingState(env, mem, cur, ps, top, z, path, block, dev, shown)
    }

    /** A new `fts_info` for the current node. */
    method Mark(info: Info, errno: nat)
      requires LinkedState(env, mem, ps, top, z, |path|, block, dev) && cur == Head(ps, top) && HasId(Cur(z).info) && HasId(info) && !info.D?
      modifies this`mem, this`z
      ensures LinkedState(env, mem, ps, top, z, |path|, block, dev) && z == SetCur(old(z), Cur(old(z)).(info := info, errno := errno))
      ensures cur in old(mem) && mem == old(mem)[cur := old(mem)[cur].(info := info, errno := errno)]
    {
      MarkCur(mem, ps, top, z, info, errno);
      SetCurOk(env, z, Cur(z).(info := info, errno := errno));
      FitsSetCur(z, Cur(z).(info := info, errno := errno), |path|);
      mem := mem[cur := mem[cur].(info := info, errno := errno)];
      z := SetCur(z, Cur(z).(info := info, errno := errno));
    }

    /** The new nodes in the order of the comparator. */
    method SortKids(head0: Ptr, es: seq<Entry>, ghost kids: seq<Ptr>) returns (head: Ptr, ghost l: seq<Ptr>)
      requires EnvOk(env) && es != [] && |ps| > 0
      requires Whole(mem, ps + [kids], top, z + [Level(es[0], es[1..])]) && head0 == First(kids)
      modifies this`mem
      ensures var es' := Arrange(env, es); Whole(mem, ps + [l], top, z + [Level(es'[0], es'[1..])])
      ensures head == Head(ps + [l], top)
      ensures forall b | Blocks(old(mem), top, b) :: Blocks(mem, top, b)
      ensures AllQuiet(old(mem)) ==> AllQuiet(mem)
    {
      hide Shape, Live, ListShape, Holds, Relinked, Blocks, AllQuiet, ContentTo, SameNodes, IdsKnown, NamesOk, Head;
      head, l := head0, kids;
      LastLevel(mem, ps, top, z, kids, es);
      if env.sorted && |es| > 1 {
        mem, head, l := SortList(env, mem, head, es, kids, |ps|, Head(ps, top), |kids|);
        assert QsortAt(env, es);
        PermuteSameNodes(kids, env.qsort(es));
        SortedShape(old(mem), mem, ps, top, kids, l);
        SortedContent(old(mem), mem, ps, top, z, kids, l, Arrange(env, es));
        HeadOfLast(ps, l, top);
      }
    }

    /** The end of `fts_build`, when entries were found: pointers into a block that moved
        are adjusted, and the new nodes sorted. */
    method Settle(head0: Ptr, es: seq<Entry>, doadjust: bool, ghost kids: seq<Ptr>, ghost m0: Memory)
      returns (head: Ptr)
      requires Ok(env, z) && |z| > 0 && Cur(z).info.D? && Fits(z, |path|)
      requires Whole(m0, ps, top, z) && Kids(m0, mem, kids, es, |z|, Head(ps, top)) && kids != [] && head0 == First(kids)
      requires Fitting(env, es, Cur(z).path, Anc(z, |z|), |path|)
      requires !doadjust ==> Blocks(m0, top, block) && InBlocks(mem, kids, block)
      requires AllQuiet(m0) && (z[0].head.info.D? ==> dev == z[0].head.id.dev)
      modifies this`mem, this`ps, this`z
      ensures var es' := Arrange(env, es); z == old(z) + [Level(es'[0], es'[1..])]
      ensures LinkedState(env, mem, ps, top, z, |path|, block, dev) && head == Head(ps, top) && AllQuiet(mem)
    {
      hide *;
      KidsFacts(env, m0, mem, ps, top, z, kids, es);
      ghost var y := z + [Level(es[0], es[1..])];
      PushWhole(m0, mem, ps, top, z, kids, es);
      if doadjust {
        Padjust(head0, ps + [kids]);
        AdjustedKeeps(old(mem), mem, ps + [kids], top, y, block);
      }
      ghost var l;
      head, l := SortKids(head0, es, kids);
      ghost var es' := Arrange(env, es);
      PushLinked(env, mem, ps + [l], top, z, es, |path|, block, dev);
      ps, z := ps + [l], z + [Level(es'[0], es'[1..])];
    }

    /** The buffer made ready for the names of the current directory's entries. */
    method EnterDir() returns (len: nat)
      requires Walking() && Cur(z).info.D?
      modifies this`path
      ensures Reading(len) && Buf() == old(Buf())
    {
      hide Ok, Shape, Live, Content, Blocks, Fits, Quiet, Head;
      CurFacts(env, mem, ps, top, z, |path|, block, dev);
      var c := mem[cur];
      NAppendIsBase(path, Cur(z).path);
      BaseExtends(Cur(z).path);
      len := NAppend(path, c.pathlen);
      if path[len - 1] != ':' {
        path := path[len := '/'];
        len := len + 1;
      }
    }

    /** `opendir` on the current node finds the directory at its path. */
    lemma {:induction false} OpensCur()
      requires Walking() && Cur(z).info.D?
      ensures cur in mem && Target(mem[cur]) == Cur(z).path
      ensures mem[cur].nlink == Cur(z).nlink && mem[cur].errno == 0
      ensures LinkedState(env, mem, ps, top, z, |path|, block, dev) && EnvOk(env) && |z| > 0 && cur == Head(ps, top)
    {
      CurFacts(env, mem, ps, top, z, |path|, block, dev);
      SpellsIsCString(path, shown);
    }

    /** The directory could not be opened. */
    method Unreadable()
      requires Walking() && Cur(z).info.D? && AllQuiet(mem)
      modifies this`mem, this`z
      ensures Walking() && AllQuiet(mem)
      ensures z == SetCur(old(z), Cur(old(z)).(info := DNR, errno := env.dnrErrno)) && shown == Cur(old(z)).path
    {
      Mark(DNR, env.dnrErrno);
    }

    /** The directory has no visible entries. */
    method Empty(len: nat)
      requires LinkedState(env, mem, ps, top, z, |path|, block, dev) && cur == Head(ps, top) && AllQuiet(mem)
      requires Cur(z).info.D? && len == |Base(Cur(z).path)| <= |path| && path[..len] == Base(Cur(z).path) && IsPow2(|path|)
      modifies this`mem, this`path, this`z, this`shown
      ensures Walking() && AllQuiet(mem) && Buf() == old(Buf())
      ensures z == SetCur(old(z), Cur(old(z)).(info := DP)) && shown == ShownEmpty(Cur(old(z)).path)
    {
      hide Ok, Whole, Blocks, Fits, Head, LinkedState;
      CurFacts(env, mem, ps, top, z, |path|, block, dev);
      LinkedParts(env, mem, ps, top, z, |path|, block, dev);
      BaseExtends(Cur(z).path);
      if |z| > 1 { ShownEmptyIs(env, z); }
      path := path[len - 1 := '\0'];
      shown := ShownEmpty(Cur(z).path);
      Mark(DP, 0);
    }

    /** `fts_build` as called by `fts_read`. */
    method Build() returns (head: Ptr)
      requires Walking() && Cur(z).info.D? && AllQuiet(mem)
      modifies this`mem, this`path, this`block, this`ps, this`z, this`shown
      ensures Buf() == RoomIn(env, realloc, Cur(old(z)).path, old(Buf())) && IsPow2(|path|)
      ensures head == Null ==>
                Walking() && AllQuiet(mem) && Step(z, shown) == DescendOn(env, realloc, old(z), old(Buf()))
      ensures head != Null ==>
                && LinkedState(env, mem, ps, top, z, |path|, block, dev) && head == Head(ps, top) && AllQuiet(mem)
                && |z| == |old(z)| + 1 && z[..|old(z)|] == old(z)
                && |Base(Cur(old(z)).path)| <= |path| && path[..|Base(Cur(old(z)).path)|] == Base(Cur(old(z)).path)
                && Stand(z) == DescendOn(env, realloc, old(z), old(Buf()))
    {
      hide *;
      OpensCur();
      ghost var dir, anc := Cur(z), Anc(z, |z|);
      var dirp := env.list(Target(mem[cur]));
      DescendCases(env, realloc, z, Buf());
      PowerOfTwo();
      BufIs();
      if dirp.None? {
        Unreadable();
        head := Null;
        return;
      }
      var nlinks := if env.nostat && env.physical then mem[cur].nlink - (if env.seedot then 0 else 2) else -1;
      LinksOfIs(env, dir);
      NamesListed(env, dir.path);
      LinkedParts(env, mem, ps, top, z, |path|, block, dev);
      var len := EnterDir();
      BufIs();
      ghost var m0, cap := mem, |path|;
      var es, doadjust;
      ghost var kids;
      head, es, doadjust, kids := ScanDir(dirp.value, nlinks, len);
      KidsFacts(env, m0, mem, ps, top, z, kids, es);
      LinkedGrow(env, m0, ps, top, z, cap, |path|, old(block), dev);
      ReadingIs(len);
      BufIs();
      if es == [] {
        KidsNone(m0, mem, kids, es, |z|, cur);
        Empty(len);
        BufIs();
        return;
      }
      FittingRoom(env, es, dir.path, anc, |path|);
      head := Settle(head, es, doadjust, kids, m0);
      HeadNotNull(env, mem, ps, top, z, |path|, block, dev);
      path := path[len := '\0'];
      BufIs();
    }

    lemma {:induction false} BufIs()
      ensures Buf().cap == |path| && Buf().block == block
    {
    }

    lemma {:induction false} PowerOfTwo()
      requires Walking()
      ensures IsPow2(|path|) && IsPow2(RoomIn(env, realloc, Cur(z).path, Buf()).cap)
    {
    }

    lemma {:induction false} ReadingIs(len: nat)
      requires Reading(len)
      ensures len == |Base(Cur(z).path)| <= |path| && path[..len] == Base(Cur(z).path)
      ensures cur == Head(ps, top)
    {
    }

    // ----- fts_read -----

    ghost var roots: seq<Entry>

    ghost predicate Opened()
      reads this
    {
      |ps| == 1 && OpenedState(env, mem, cur, ps[0], top, roots, |path|, block)
    }

    /** The walk is over: nothing is allocated any more. */
    ghost predicate Over()
      reads this
    {
      cur == Null && z == [] && ps == [] && mem == map[]
    }

    /** From the current node to its next sibling. */
    method NextSibling()
      requires Walking() && AllQuiet(mem) && SiblingNext(z)
      modifies this
      ensures Walking() && AllQuiet(mem) && Step(z, shown) == Advance(env, old(z)) && Buf() == old(Buf())
    {
      hide LinkedState, Spells, Shows, Base, Head, Blocks, Ok, PathOk, DropCur;
      NextFacts(env, mem, ps, top, z, |path|, block, dev);
      ParentPath(env, mem, ps, top, z, path, block, dev, shown);
      SiblingLinked(env, mem, ps, top, z, |path|, block, dev);
      ghost var pp := z[|z| - 2].head.path;
      var tmp := cur;
      cur := Null;
      var p := mem[tmp].link;
      Free(tmp);
      ps, z := DropCur(ps), Advance(env, z).z;
      CurSibling(env, mem, ps, top, z, |path|, block, dev);
      PutName(p, pp);
      cur := p;
      shown := Cur(z).path;
      ShowsCur(z);
    }

    /** From the dummy node, or from a root that is done, to the root `p` behind it. */
    method NextRoot(tmp: Ptr, ghost rs: seq<Ptr>, ghost es: seq<Entry>)
      requires EnvOk(env) && es != [] && RootsOk(env, es)
      requires tmp in mem && tmp != top && rs != [] && mem[tmp].link == rs[0] && AllQuiet(mem)
      requires Shape(mem - {tmp}, [rs], top) && Live(mem - {tmp}, [rs], top)
      requires Holds(mem - {tmp}, rs, es, 0) && Blocks(mem - {tmp}, top, block)
      requires (forall i | 0 <= i < |es| :: |es[i].path| < |path|) && IsPow2(|path|)
      modifies this
      ensures Walking() && AllQuiet(mem) && Buf() == old(Buf())
      ensures z == [Level(Loaded(env, es[0]), es[1..])] && shown == Cur(z).path
    {
      hide LinkedState, Shape, Live, Holds, Blocks, RootsOk;
      var p := mem[tmp].link;
      cur := Null;
      Free(tmp);
      RootLinked(env, mem, rs, top, es, |path|, block);
      RootNames(env, es);
      Load(p);
      cur := p;
      ps, z, shown := [rs], [Level(Loaded(env, es[0]), es[1..])], es[0].path;
    }

    /** From the last sibling up to the parent directory, in post-order. */
    method GoUp()
      requires Walking() && AllQuiet(mem) && |z| > 1 && z[|z| - 1].rest == []
      modifies this
      ensures Walking() && AllQuiet(mem) && Step(z, shown) == Advance(env, old(z)) && Buf() == old(Buf())
    {
      hide LinkedState, Base, Head, Blocks, Ok, DropCur, Live, Content;
      NextFacts(env, mem, ps, top, z, |path|, block, dev);
      ParentPath(env, mem, ps, top, z, path, block, dev, shown);
      UpLinked(env, mem, ps, top, z, |path|, block, dev);
      UpParent(env, mem, ps, top, z, |path|, block, dev);
      ghost var pp := z[|z| - 2].head.path;
      var tmp := cur;
      cur := Null;
      var p := mem[tmp].parent;
      Free(tmp);
      ps, z := DropCur(ps), z[..|z| - 1];
      cur := p;
      path := path[mem[p].pathlen := '\0'];
      shown := pp;
      Mark(if mem[p].errno != 0 then Err else DP, mem[p].errno);
    }

    /** The label `next` in `fts_read`: the current node is done. */
    method ReadNext()
      requires Walking() && AllQuiet(mem) && !Cur(z).info.D?
      modifies this
      ensures z != [] ==> Walking() && AllQuiet(mem)
      ensures z == [] ==> Over()
      ensures z != [] ==> Step(z, shown) == Advance(env, old(z)) && Buf() == old(Buf())
      ensures z == [] ==> Advance(env, old(z)).z == []
    {
      hide LinkedState, Head, Whole, Spells, Shows, Quiet;
      NextFacts(env, mem, ps, top, z, |path|, block, dev);
      LinkedParts(env, mem, ps, top, z, |path|, block, dev);
      if mem[cur].link != Null {
        if mem[mem[cur].link].level != 0 {
          NextSibling();
        } else {
          RootsBehind(env, mem, ps, top, z, |path|, block, dev);
          ghost var es := z[0].rest;
          assert Advance(env, z).z == [Level(Loaded(env, es[0]), es[1..])];
          NextRoot(cur, ps[0][1..], es);
        }
      } else if mem[mem[cur].parent].level != -1 {
        GoUp();
      } else {
        LastWhole(mem, ps, top, z);
        var tmp := cur;
        cur := Null;
        var p := mem[tmp].parent;
        Free(tmp);
        Free(p);
        ps, z := [], [];
      }
    }

    /** The part of `fts_read` for a directory in pre-order. */
    method ReadDirectory(skip: bool)
      requires Walking() && AllQuiet(mem) && Cur(z).info.D?
      modifies this
      ensures Walking() && AllQuiet(mem) && z != []
      ensures Step(z, shown) == NextOn(env, realloc, old(z), skip, old(Buf()))
      ensures Buf() == RoomAfter(env, realloc, old(z), skip, old(Buf()))
    {
      hide LinkedState, Spells, Ok, Base, Head, DescendOn, PathOk, IsPow2, RoomIn;
      States();
      DirFacts(env, mem, ps, top, z, |path|, block, dev);
      if skip || (env.xdev && mem[cur].id.dev != dev) {
        Mark(DP, mem[cur].errno);
        return;
      }
      ghost var dir := Cur(z).path;
      var child := Build();
      if child != Null {
        CurSibling(env, mem, ps, top, z, |path|, block, dev);
        BufferHolds(path, dir);
        PutName(child, dir);
        cur := child;
        shown := Cur(z).path;
      } else {
        States();
      }
    }

    lemma {:induction false} States()
      requires Walking() || Opened() || Over()
      ensures Walking() ==> |z| > 0 && cur in mem && cur != Null && !mem[cur].info.Init? && mem[cur].info == Cur(z).info
      ensures Walking() ==> LinkedState(env, mem, ps, top, z, |path|, block, dev) && cur == Head(ps, top) && Quiet(mem, cur)
      ensures Opened() ==> cur in mem && cur != Null && mem[cur].info.Init?
      ensures Over() ==> cur == Null
    {
      if Walking() {
        CurFacts(env, mem, ps, top, z, |path|, block, dev);
        HeadNotNull(env, mem, ps, top, z, |path|, block, dev);
        assert LevelOk(env, z, |z| - 1);
      }
    }

    /** The first read. */
    method ReadFirst()
      requires Opened()
      modifies this
      ensures Walking() && AllQuiet(mem) && Buf() == old(Buf())
      ensures z == [Level(Loaded(env, old(roots[0])), old(roots[1..]))] && shown == Cur(z).path
    {
      NextRoot(cur, ps[0], roots);
    }

    /** A later read. */
    method ReadLater()
      requires Walking()
      modifies this
      ensures z == [] ==> Over()
      ensures z != [] ==> Walking() && AllQuiet(mem)
      ensures var skip := old(mem[cur].instr.SkipInstr?);
              var next := NextOn(env, realloc, old(z), skip, old(Buf()));
              z == next.z && (z != [] ==> shown == next.shown && Buf() == RoomAfter(env, realloc, old(z), skip, old(Buf())))
    {
      hide LinkedState, Spells, Shows, Ok, Head, DescendOn, Advance, Crosses, IsPow2, RoomIn;
      States();
      ClearInstr(env, mem, ps, top, z, |path|, block, dev);
      var instr := mem[cur].instr;
      mem := mem[cur := mem[cur].(instr := NoInstr)];
      if mem[cur].info.D? {
        ReadDirectory(instr.SkipInstr?);
      } else {
        ReadNext();
      }
    }

    /** `fts_read`: one step of the position, and NULL when the walk is over. */
    method Read() returns (p: Ptr)
      requires Walking() || Opened() || Over()
      modifies this
      ensures p == cur && (p == Null <==> z == []) && (p == Null ==> Over()) && (p != Null ==> Walking() && AllQuiet(mem))
      ensures old(Opened()) ==>
                Step(z, shown) == Stand([Level(Loaded(env, old(roots[0])), old(roots[1..]))]) && Buf() == old(Buf())
      ensures old(Walking()) ==>
                var skip := old(mem[cur].instr.SkipInstr?);
                var next := NextOn(env, realloc, old(z), skip, old(Buf()));
                z == next.z && (p != Null ==> shown == next.shown && Buf() == RoomAfter(env, realloc, old(z), skip, old(Buf())))
    {
      hide Walking, Opened, NextOn, RoomAfter;
      States();
      if cur == Null {
        return Null;
      }
      if mem[cur].info.Init? {
        ReadFirst();
      } else {
        ReadLater();
      }
      States();
      return cur;
    }

    /** `fts_set` with FTS_SKIP on the current node. */
    method SetSkip()
      requires Walking()
      modifies this`mem
      ensures Walking() && cur in old(mem) && mem == old(mem)[cur := old(mem)[cur].(instr := SkipInstr)]
    {
      hide LinkedState, Head, Quiet, Spells, Shows;
      States();
      SkipLinked(env, mem, ps, top, z, |path|, block, dev);
      mem := mem[cur := mem[cur].(instr := SkipInstr)];
    }

    /** `fts_close`: every node is freed, once; but before the first read the loop starts at
        the dummy node, whose level nobody has set. */
    method Close()
      requires Walking() || Opened() || Over()
      modifies this
      ensures old(Walking()) || old(Over()) ==> mem == map[]
      ensures old(Opened()) ==> mem == if old(mem[cur].level) >= 0 then map[] else old(mem) - {old(cur)}
    {
      hide LinkedState, Quiet, Spells, Shows, OpenedState, Shape, Live;
      States();
      if cur != Null {
        ghost var dummy := mem[cur].info.Init?;
        if dummy {
          OpenedFacts(env, mem, cur, ps, top, roots, |path|, block);
        } else {
          LinkedParts(env, mem, ps, top, z, |path|, block, dev);
        }
        mem := FreeFrom(mem, cur, ps, top, dummy);
      }
      cur, path := Null, [];
      ps, z := [], [];
    }

    // ----- fts_open -----

    /** A node for the root `arg`, stat'ed by its own name. */
    method MakeRoot(arg: string, parent: Ptr) returns (p: Ptr, e: Entry)
      requires parent == top && top in mem && mem[top].level == -1 && Null !in mem
      modifies this`mem
      ensures NewRoot(old(mem), mem, top, p, e, block) && e == RootEntry(env, arg)
    {
      p := Alloc(arg);
      mem := mem[p := mem[p].(level := 0, parent := parent, acc := OwnName)];
      ghost var n := mem[p];
      StatNode(p, env.comfollow, [], []);
      RestatView(n, env, arg, [], env.comfollow, mem[p].cycle, arg);
      if env.unixPaths && mem[p].info.Dot? {
        mem := mem[p := mem[p].(info := D)];
      }
      e := View(mem[p], arg);
    }

    /** One turn of the loop in `fts_open`. */
    method AddRoot(arg: string, parent: Ptr, root: Ptr, tmp: Ptr, es: seq<Entry>, ghost rs: seq<Ptr>)
      returns (root': Ptr, tmp': Ptr, es': seq<Entry>, ghost rs': seq<Ptr>)
      requires parent == top && RootsSoFar(mem, top, rs, es, block) && root == First(rs)
      requires !env.sorted ==> tmp == Last(rs)
      modifies this`mem
      ensures RootsSoFar(mem, top, rs', es', block) && root' == First(rs')
      ensures !env.sorted ==> tmp' == Last(rs')
      ensures es' == if env.sorted then [RootEntry(env, arg)] + es else es + [RootEntry(env, arg)]
    {
      hide NewRoot, RootEntry, ListShape, Holds, AllQuiet, Blocks;
      var p, e := MakeRoot(arg, parent);
      NewRootIn(old(mem), mem, top, p, e, block);
      tmp' := tmp;
      if env.sorted {
        PrependRoot(old(mem), mem, top, rs, es, p, e, block);
        mem := mem[p := mem[p].(link := root)];
        root', rs', es' := p, [p] + rs, [e] + es;
      } else {
        AppendRoot(old(mem), mem, top, rs, es, p, e, block);
        ghost var m := Hang(mem[p := mem[p].(link := Null)], rs, p);
        mem := mem[p := mem[p].(link := Null)];
        root', tmp' := root, p;
        if root == Null {
          root' := p;
        } else {
          mem := mem[tmp := mem[tmp].(link := p)];
        }
        FirstNotNull(old(mem), top, rs, es, block);
        assert mem == m;
        rs', es' := rs + [p], es + [e];
      }
    }

    method SortRoots(root: Ptr, es: seq<Entry>, ghost rs: seq<Ptr>)
      returns (root': Ptr, es': seq<Entry>, ghost rs': seq<Ptr>)
      requires EnvOk(env) && RootsSoFar(mem, top, rs, es, block) && root == First(rs)
      modifies this`mem
      ensures es' == Arrange(env, es) && RootsSoFar(mem, top, rs', es', block) && root' == First(rs')
    {
      root', es', rs' := root, es, rs;
      if env.sorted && |es| > 1 {
        mem, root', rs' := SortList(env, mem, root, es, rs, 0, top, 0);
        assert QsortAt(env, es);
        PermuteSameNodes(rs, env.qsort(es));
        es' := Permute(es, env.qsort(es));
        SortedRoots(old(mem), mem, top, rs, es, rs', es', block);
      }
    }

    /** The loop of `fts_open` over its arguments; an empty one ends it with nothing left allocated. */
    method MakeRoots(args: seq<string>, parent: Ptr)
      returns (ok: bool, root: Ptr, es: seq<Entry>, ghost rs: seq<Ptr>)
      requires parent == top && RootsSoFar(mem, top, [], [], block)
      modifies this`mem
      ensures ok <==> forall i | 0 <= i < |args| :: args[i] != ""
      ensures !ok ==> mem == map[]
      ensures ok ==> RootsSoFar(mem, top, rs, es, block) && root == First(rs)
      ensures ok ==> es == if env.sorted then Reverse(Roots(env, args)) else Roots(env, args)
    {
      hide RootsSoFar, RootEntry, Roots, Reverse;
      var tmp, i := Null, 0;
      ok, root, es, rs := true, Null, [], [];
      RootsNil(env, args);
      while i < |args|
        invariant 0 <= i <= |args| && forall j | 0 <= j < i :: args[j] != ""
        invariant RootsSoFar(mem, top, rs, es, block) && root == First(rs) && (!env.sorted ==> tmp == Last(rs))
        invariant es == if env.sorted then Reverse(Roots(env, args[..i])) else Roots(env, args[..i])
      {
        if args[i] == "" {
          mem := FreeRoots(mem, root, rs, es, top, block);
          Free(parent);
          ok := false;
          return;
        }
        root, tmp, es, rs := AddRoot(args[i], parent, root, tmp, es, rs);
        RootsSnoc(env, args, i);
        i := i + 1;
      }
      assert args[..i] == args;
    }

    /** The path buffer, with room for every argument, and the roots' parent. */
    method MakeParent(args: seq<string>) returns (parent: Ptr)
      requires mem == map[]
      modifies this`mem, this`path, this`block, this`top
      ensures parent == top && RootsSoFar(mem, top, [], [], block)
      ensures (forall i | 0 <= i < |args| :: |args[i]| < |path|) && Buf() == Buffer(FirstRoom(args), 0) && IsPow2(|path|)
    {
      hide RootsSoFar, Pow2Ceil, IsPow2;
      var room := MaxArgLen(args);
      path := [];
      var _ := Palloc(if room < MAXPATHLEN then MAXPATHLEN else room);
      block := 0;
      parent := Alloc("");
      mem := mem[parent := mem[parent].(level := -1)];
      top := parent;
      NoRoots(mem, top, block);
    }

    /** `fts_open`: with an empty argument everything is freed again; otherwise the roots are
        ready to be walked.  `junk` is the level that the dummy node happens to have. */
    method Open(args: seq<string>, junk: int) returns (ok: bool)
      requires EnvOk(env) && mem == map[]
      requires forall i | 0 <= i < |args| :: args[i] != "" ==> PathOk(args[i])
      modifies this
      ensures ok <==> forall i | 0 <= i < |args| :: args[i] != ""
      ensures !ok ==> mem == map[]
      ensures ok && args != [] ==> Opened() && roots == RootList(env, args) && mem[cur].level == junk && Buf() == Buffer(FirstRoom(args), 0)
      ensures ok && args == [] ==> mem.Keys == {cur}
    {
      hide RootsSoFar, RootEntry, Roots, RootList, OpenedState, EnvOk, Reverse, RootsOk, First, PathOk, AllQuiet, IsPow2, FirstRoom;
      var parent := MakeParent(args);
      var root, es;
      ghost var rs;
      ok, root, es, rs := MakeRoots(args, parent);
      if !ok {
        return;
      }
      root, es, rs := SortRoots(root, es, rs);
      RootListIs(env, args);
      RootListOk(env, args);
      RootPaths(env, args, |path|);
      OnlyParent(mem, top, rs, es, block);
      ghost var m0 := mem;
      cur := Alloc("");
      mem := mem[cur := mem[cur].(link := root, info := Init, level := junk)];
      if args == [] {
        Free(parent);
      } else {
        OpenedFrom(env, m0, mem, cur, top, rs, es, |path|, block);
        ps, roots := [rs], es;
      }
    }

    /** What the caller sees of the current node. */
    method Look() returns (s: Seen)
      requires Walking() && |z| > 0
      ensures s == See(Visit(shown, Cur(z), |z| - 1))
    {
      hide Ok, Whole, Blocks, Fits, LinkedState;
      CurFacts(env, mem, ps, top, z, |path|, block, dev);
      CurLevel(env, mem, ps, top, z, |path|, block, dev);
      SpellsIsCString(path, shown);
      var n := mem[cur];
      s := Seen(CString(path), n.pathlen, n.name, n.info, n.level, n.errno);
    }
  }
}
