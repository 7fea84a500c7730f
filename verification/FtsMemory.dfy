/**
 * The heap of an fts stream: FTSENT nodes at addresses, reached by `fts_link` and
 * `fts_parent`.  `mem` maps exactly the addresses that are allocated, so reading a freed
 * node or freeing one twice is a map access outside its domain.
 */
module FtsMemory {
  import opened FtsSpec
  import opened FtsCursor

  datatype Ptr = Null | At(addr: nat)

  datatype Instr = NoInstr | SkipInstr

  /** `fts_accpath`: the node's own name, or the path buffer in the memory block `b`. */
  datatype AccPath = OwnName | Block(b: nat)

  /** `path` is the memory block `fts_path` points to; `cycle` is `fts_cycle`. */
  datatype Node = Node(
    link: Ptr, parent: Ptr, level: int, name: string, info: Info, id: Id, nlink: int,
    errno: nat, pathlen: nat, instr: Instr, path: nat, acc: AccPath, cycle: Ptr)

  type Memory = map<Ptr, Node>

  // ----- shape: which node points to which -----

  predicate Distinct(l: seq<Ptr>) {
    forall i, j | 0 <= i < j < |l| :: l[i] != l[j]
  }

  function After1(l: seq<Ptr>, i: nat): Ptr {
    if i + 1 < |l| then l[i + 1] else Null
  }

  ghost predicate NodeShape(mem: Memory, l: seq<Ptr>, level: int, parent: Ptr, i: nat)
    requires i < |l|
  {
    && l[i] in mem && l[i] != Null
    && mem[l[i]].level == level
    && mem[l[i]].parent == parent
    && mem[l[i]].link == After1(l, i)
  }

  /** `l` is a whole sibling list. */
  ghost predicate ListShape(mem: Memory, l: seq<Ptr>, level: int, parent: Ptr) {
    && Distinct(l)
    && forall i | 0 <= i < |l| :: NodeShape(mem, l, level, parent, i)
  }

  type Lists = seq<seq<Ptr>>

  function Up(ps: Lists, k: nat, top: Ptr): Ptr
    requires k <= |ps|
  {
    if k > 0 && |ps[k - 1]| > 0 then ps[k - 1][0] else top
  }

  ghost predicate LevelShape(mem: Memory, ps: Lists, top: Ptr, k: nat)
    requires k < |ps|
  {
    ListShape(mem, ps[k], k, Up(ps, k, top))
  }

  /** On every level the current node and its later siblings; a level hangs below the first
      node of the level above it, the roots below the node `top`. */
  ghost predicate Shape(mem: Memory, ps: Lists, top: Ptr) {
    && top in mem && mem[top].level == -1
    && Null !in mem
    && (forall k | 0 <= k < |ps| :: |ps[k]| > 0)
    && (forall k | 0 <= k < |ps| :: LevelShape(mem, ps, top, k))
  }

  /** Every allocated node is on one of the lists. */
  ghost predicate Live(mem: Memory, ps: Lists, top: Ptr) {
    forall p | p in mem :: p == top || (0 <= mem[p].level < |ps| && p in ps[mem[p].level])
  }

  // ----- content: which entries the nodes hold -----

  predicate HasId(info: Info) {
    info.D? || info.DC? || info.Dot? || info.DP? || info.DNR?
  }

  function View(n: Node, path: string): Entry {
    Entry(path, n.name, n.info, if HasId(n.info) then n.id else NO_ID, if HasId(n.info) then n.nlink else 0, n.errno)
  }

  ghost predicate NodeIs(n: Node, e: Entry, loaded: bool) {
    && View(n, e.path) == e
    && (loaded ==> n.pathlen == |e.path| && n.acc.Block?)
  }

  /** The nodes `l` hold the entries `es`; the first `loaded` of them know their path. */
  ghost predicate Holds(mem: Memory, l: seq<Ptr>, es: seq<Entry>, loaded: nat) {
    && |l| == |es|
    && forall i | 0 <= i < |l| :: l[i] in mem && NodeIs(mem[l[i]], es[i], i < loaded)
  }

  function Nodes(v: Level): (es: seq<Entry>)
    ensures |es| == 1 + |v.rest| && es[0] == v.head && es[1..] == v.rest
  {
    [v.head] + v.rest
  }

  function LoadedOn(k: nat, l: seq<Ptr>): nat {
    if k == 0 then 1 else |l|
  }

  ghost predicate ContentTo(mem: Memory, ps: Lists, z: Levels, n: nat)
    requires n <= |ps| && n <= |z|
  {
    forall k | 0 <= k < n :: Holds(mem, ps[k], Nodes(z[k]), LoadedOn(k, ps[k]))
  }

  ghost predicate Content(mem: Memory, ps: Lists, z: Levels) {
    |ps| == |z| && ContentTo(mem, ps, z, |ps|)
  }

  /** The allocated nodes are exactly those that the position `z` needs, linked and filled. */
  ghost predicate Whole(mem: Memory, ps: Lists, top: Ptr, z: Levels) {
    Shape(mem, ps, top) && Live(mem, ps, top) && Content(mem, ps, z)
  }

  /** No node but the current one carries an instruction. */
  ghost predicate Quiet(mem: Memory, cur: Ptr) {
    forall p | p in mem && p != cur :: mem[p].instr.NoInstr?
  }

  ghost predicate AllQuiet(mem: Memory) {
    forall p | p in mem :: mem[p].instr.NoInstr?
  }

  /** `fts_path` and `fts_accpath` point into the block `b` (or at the node's own name). */
  predicate InBlock(n: Node, b: nat) {
    n.path == b && (n.acc.OwnName? || n.acc.b == b)
  }

  ghost predicate Blocks(mem: Memory, top: Ptr, b: nat) {
    forall p | p in mem && p != top :: InBlock(mem[p], b)
  }

  // ----- frames -----

  predicate SamePlace(n: Node, n': Node) {
    n'.link == n.link && n'.level == n.level && n'.parent == n.parent
  }

  lemma {:induction false} ListShapeFrame(mem: Memory, mem': Memory, l: seq<Ptr>, level: int, parent: Ptr)
    requires ListShape(mem, l, level, parent)
    requires forall i | 0 <= i < |l| :: l[i] in mem' && l[i] in mem && SamePlace(mem[l[i]], mem'[l[i]])
    ensures ListShape(mem', l, level, parent)
  {
    forall i | 0 <= i < |l| ensures NodeShape(mem', l, level, parent, i) {
      assert NodeShape(mem, l, level, parent, i);
    }
  }

  /** Nothing about shape changes when nodes keep their links, levels and parents. */
  ghost predicate SameLinks(mem: Memory, mem': Memory) {
    && mem'.Keys == mem.Keys
    && forall p | p in mem :: SamePlace(mem[p], mem'[p])
  }

  lemma {:induction false} ShapeFrame(mem: Memory, mem': Memory, ps: Lists, top: Ptr)
    requires Shape(mem, ps, top) && Live(mem, ps, top) && SameLinks(mem, mem')
    ensures Shape(mem', ps, top) && Live(mem', ps, top)
  {
    forall k | 0 <= k < |ps| ensures LevelShape(mem', ps, top, k) {
      assert LevelShape(mem, ps, top, k);
      forall i | 0 <= i < |ps[k]| ensures ps[k][i] in mem {
        assert NodeShape(mem, ps[k], k, Up(ps, k, top), i);
      }
      ListShapeFrame(mem, mem', ps[k], k, Up(ps, k, top));
    }
  }

  /** A listed node sits on the list of its own level. */
  lemma {:induction false} OnLevel(mem: Memory, ps: Lists, top: Ptr, k: nat, i: nat)
    requires Shape(mem, ps, top) && k < |ps|
    requires i < |ps[k]|
    ensures ps[k][i] in mem && mem[ps[k][i]].level == k && ps[k][i] != top && ps[k][i] != Null
    ensures mem[ps[k][i]].link == After1(ps[k], i) && mem[ps[k][i]].parent == Up(ps, k, top)
  {
    assert LevelShape(mem, ps, top, k);
    assert NodeShape(mem, ps[k], k, Up(ps, k, top), i);
  }

  // ----- leaving the current node -----

  /** The lists after the current node is freed: its next sibling, or else its parent, becomes current. */
  function DropCur(ps: Lists): Lists
    requires |ps| > 0
  {
    var top := |ps| - 1;
    if |ps[top]| > 1 then ps[top := ps[top][1..]] else ps[..top]
  }

  lemma {:induction false} TailShape(mem: Memory, l: seq<Ptr>, level: int, parent: Ptr)
    requires ListShape(mem, l, level, parent) && |l| > 0
    ensures ListShape(mem - {l[0]}, l[1..], level, parent)
  {
    var t := l[1..];
    forall i | 0 <= i < |t| ensures NodeShape(mem - {l[0]}, t, level, parent, i) {
      assert NodeShape(mem, l, level, parent, i + 1);
    }
  }

  lemma {:induction false} OtherShape(mem: Memory, ps: Lists, top: Ptr, k: nat, p: Ptr)
    requires Shape(mem, ps, top) && k < |ps| && p in mem && mem[p].level != k
    ensures ListShape(mem - {p}, ps[k], k, Up(ps, k, top))
  {
    assert LevelShape(mem, ps, top, k);
    forall i | 0 <= i < |ps[k]| ensures NodeShape(mem - {p}, ps[k], k, Up(ps, k, top), i) {
      assert NodeShape(mem, ps[k], k, Up(ps, k, top), i);
    }
  }

  /** Freeing the current node: the rest is shaped like `DropCur`, and the code's
      "fts_link, else fts_parent" leads to its current node. */
  lemma {:induction false} DropCurShape(mem: Memory, ps: Lists, top: Ptr)
    requires Shape(mem, ps, top) && Live(mem, ps, top) && |ps| > 0
    ensures var c := Head(ps, top);
            && c == ps[|ps| - 1][0] && c in mem && c != top && mem[c].level == |ps| - 1
            && Shape(mem - {c}, DropCur(ps), top) && Live(mem - {c}, DropCur(ps), top)
            && (mem[c].link != Null <==> |ps[|ps| - 1]| > 1)
            && (|ps[|ps| - 1]| > 1 ==> mem[c].link == ps[|ps| - 1][1])
            && mem[c].parent == (if |ps| > 1 then ps[|ps| - 2][0] else top)
  {
    var t := |ps| - 1;
    var c := ps[t][0];
    OnLevel(mem, ps, top, t, 0);
    var ps' := DropCur(ps);
    if |ps[t]| > 1 { OnLevel(mem, ps, top, t, 1); }
    forall k | 0 <= k < |ps'| ensures LevelShape(mem - {c}, ps', top, k) {
      assert LevelShape(mem, ps, top, k);
      if k < t {
        OtherShape(mem, ps, top, k, c);
      } else {
        TailShape(mem, ps[t], t, Up(ps, t, top));
      }
    }
    forall p | p in mem - {c}
      ensures p == top || (0 <= mem[p].level < |ps'| && p in ps'[mem[p].level])
    {
      if p != top {
        var k := mem[p].level;
        assert p in ps[k];
        if k == t { assert p in ps[t][1..]; }
      }
    }
  }

  /** The first node of the deepest list, or the roots' parent when there is none. */
  function Head(ps: Lists, top: Ptr): Ptr {
    Up(ps, |ps|, top)
  }

  function Following(n: Node): Ptr {
    if n.link != Null then n.link else n.parent
  }

  /** One step of the loops in `fts_close` and `fts_padjust`. */
  lemma {:induction false} FollowingIsHead(mem: Memory, ps: Lists, top: Ptr)
    requires Shape(mem, ps, top) && Live(mem, ps, top) && |ps| > 0
    ensures Head(ps, top) in mem
    ensures var p := Head(ps, top);
            var mem' := mem - {p};
            var next := Following(mem[p]);
            && Shape(mem', DropCur(ps), top) && Live(mem', DropCur(ps), top)
            && next == Head(DropCur(ps), top) && next in mem' && mem'[next].level == |DropCur(ps)| - 1
  {
    DropCurShape(mem, ps, top);
    var c := ps[|ps| - 1][0];
    var ps' := DropCur(ps);
    if |ps'| > 0 { OnLevel(mem - {c}, ps', top, |ps'| - 1, 0); }
  }

  lemma {:induction false} HeadInMemory(mem: Memory, ps: Lists, top: Ptr)
    requires Shape(mem, ps, top)
    ensures Head(ps, top) in mem && mem[Head(ps, top)].level == |ps| - 1
  {
    if |ps| > 0 { OnLevel(mem, ps, top, |ps| - 1, 0); }
  }

  lemma {:induction false} ContentWithout(mem: Memory, ps: Lists, top: Ptr, z: Levels, n: nat, p: Ptr)
    requires Shape(mem, ps, top) && n <= |ps| && n <= |z| && ContentTo(mem, ps, z, n)
    requires p in mem && mem[p].level >= n
    ensures ContentTo(mem - {p}, ps, z, n)
  {
    forall k | 0 <= k < n ensures Holds(mem - {p}, ps[k], Nodes(z[k]), LoadedOn(k, ps[k])) {
      assert Holds(mem, ps[k], Nodes(z[k]), LoadedOn(k, ps[k]));
      forall i | 0 <= i < |ps[k]| ensures ps[k][i] in mem - {p} {
        OnLevel(mem, ps, top, k, i);
      }
    }
  }

  lemma {:induction false} TailHolds(mem: Memory, l: seq<Ptr>, es: seq<Entry>, loaded: nat)
    requires Distinct(l) && |l| > 0 && 0 < loaded && Holds(mem, l, es, loaded)
    ensures Holds(mem - {l[0]}, l[1..], es[1..], loaded - 1)
  {
  }

  /** The content of the lists below the current one, and of its tail, survives `DropCur`. */
  lemma {:induction false} DropCurContent(mem: Memory, ps: Lists, top: Ptr, z: Levels)
    requires Shape(mem, ps, top) && Content(mem, ps, z) && |ps| > 0
    ensures var t := |ps| - 1;
            var mem' := mem - {ps[t][0]};
            && ContentTo(mem', ps, z, t)
            && Holds(mem', ps[t][1..], z[t].rest, LoadedOn(t, ps[t]) - 1)
  {
    var t := |ps| - 1;
    OnLevel(mem, ps, top, t, 0);
    ContentWithout(mem, ps, top, z, t, ps[t][0]);
    assert LevelShape(mem, ps, top, t);
    TailHolds(mem, ps[t], Nodes(z[t]), LoadedOn(t, ps[t]));
  }

  lemma {:induction false} MarkHolds(mem: Memory, ps: Lists, top: Ptr, z: Levels, info: Info, errno: nat, k: nat)
    requires Shape(mem, ps, top) && Content(mem, ps, z) && k < |ps|
    requires HasId(Cur(z).info) && HasId(info)
    requires Head(ps, top) in mem
    ensures var c := Head(ps, top);
            Holds(mem[c := mem[c].(info := info, errno := errno)], ps[k],
                  Nodes(SetCur(z, Cur(z).(info := info, errno := errno))[k]), LoadedOn(k, ps[k]))
  {
    var c := Head(ps, top);
    assert LevelShape(mem, ps, top, k);
    var mem' := mem[c := mem[c].(info := info, errno := errno)];
    var es := Nodes(SetCur(z, Cur(z).(info := info, errno := errno))[k]);
    assert Holds(mem, ps[k], Nodes(z[k]), LoadedOn(k, ps[k]));
    OnLevel(mem, ps, top, |ps| - 1, 0);
    forall i | 0 <= i < |ps[k]| ensures ps[k][i] in mem' && NodeIs(mem'[ps[k][i]], es[i], i < LoadedOn(k, ps[k])) {
      OnLevel(mem, ps, top, k, i);
      assert NodeIs(mem[ps[k][i]], Nodes(z[k])[i], i < LoadedOn(k, ps[k]));
    }
  }

  /** Changing only `fts_info` and `fts_errno` of the current node. */
  lemma {:induction false} MarkCur(mem: Memory, ps: Lists, top: Ptr, z: Levels, info: Info, errno: nat)
    requires Shape(mem, ps, top) && Live(mem, ps, top) && Content(mem, ps, z) && |ps| > 0
    requires HasId(Cur(z).info) && HasId(info)
    ensures Head(ps, top) in mem
    ensures var c := Head(ps, top);
            var mem' := mem[c := mem[c].(info := info, errno := errno)];
            && Shape(mem', ps, top) && Live(mem', ps, top)
            && Content(mem', ps, SetCur(z, Cur(z).(info := info, errno := errno)))
  {
    hide Shape, Holds, HasId;
    HeadInMemory(mem, ps, top);
    var c := Head(ps, top);
    var mem' := mem[c := mem[c].(info := info, errno := errno)];
    var y := SetCur(z, Cur(z).(info := info, errno := errno));
    ShapeFrame(mem, mem', ps, top);
    forall k | 0 <= k < |ps| ensures Holds(mem', ps[k], Nodes(y[k]), LoadedOn(k, ps[k])) {
      MarkHolds(mem, ps, top, z, info, errno, k);
    }
  }
}
