/**
 * `swab24` and `swab64`: PowerPC loops that reverse the bytes of every 3- or 8-byte word, several
 * words at a time, from one place in memory to another or in place.
 */
module Swab {
  import opened Common

  type Cell = bv8
  type Cells = seq<Cell>

  // ----- what they compute -----

  /** Every whole word of `w` bytes reversed; what is left over is dropped. */
  function SwabWords(s: Cells, w: nat): (r: Cells)
    requires w > 0
    ensures |r| <= |s|
  {
    if |s| < w then [] else Reverse(s[..w]) + SwabWords(s[w..], w)
  }

  /** A length rounded down to whole words. */
  function Whole(n: nat, w: nat): (k: nat)
    requires w > 0
    ensures k <= n
  {
    if n < w then 0 else w + Whole(n - w, w)
  }

  lemma {:induction false} SwabLength(s: Cells, w: nat)
    requires w > 0
    ensures |SwabWords(s, w)| == Whole(|s|, w)
    decreases |s|
  {
    if |s| >= w {
      SwabLength(s[w..], w);
    }
  }

  lemma {:induction false} ReverseTwice(s: Cells)
    ensures Reverse(Reverse(s)) == s
  {
  }

  /** Swapping twice gives the whole words back. */
  lemma {:induction false} SwabTwice(s: Cells, w: nat)
    requires w > 0
    ensures SwabWords(SwabWords(s, w), w) == s[..Whole(|s|, w)]
    decreases |s|
  {
    if |s| >= w {
      SwabTwiceStep(s, w);
    }
  }

  lemma {:induction false} SwabStep(a: Cells, b: Cells, w: nat)
    requires w > 0 && |a| == w
    ensures SwabWords(a + b, w) == Reverse(a) + SwabWords(b, w)
  {
    hide Reverse;
    assert (a + b)[..w] == a && (a + b)[w..] == b;
  }

  lemma {:induction false} SwabTwiceStep(s: Cells, w: nat)
    requires w > 0 && |s| >= w
    ensures SwabWords(SwabWords(s, w), w) == s[..Whole(|s|, w)]
    decreases |s|, 0
  {
    hide Reverse, SwabWords;
    var a, b := s[..w], s[w..];
    assert s == a + b;
    SwabStep(a, b, w);
    SwabStep(Reverse(a), SwabWords(b, w), w);
    SwabTwice(b, w);
    ReverseTwice(a);
    var k := Whole(|s| - w, w);
    assert a + b[..k] == s[..w + k];
  }

  lemma {:induction false} SwabConcat(a: Cells, b: Cells, w: nat)
    requires w > 0 && Whole(|a|, w) == |a|
    ensures SwabWords(a + b, w) == SwabWords(a, w) + SwabWords(b, w)
    decreases |a|
  {
    if a == [] {
      assert a + b == b;
    } else {
      assert |a| >= w;
      assert (a + b)[..w] == a[..w] && (a + b)[w..] == a[w..] + b;
      SwabConcat(a[w..], b, w);
    }
  }

  // ----- registers -----

  function JoinWords(a: Word, b: Word, c: Word, d: Word): Word {
    (a << 24) | (b << 16) | (c << 8) | d
  }

  function Join(a: Cell, b: Cell, c: Cell, d: Cell): Word {
    JoinWords(a as Word, b as Word, c as Word, d as Word)
  }

  /** Byte `i` of a word, the highest first. */
  function Part(x: Word, i: nat): Cell {
    match i
    case 0 => (x >> 24) as Cell
    case 1 => ((x >> 16) & 0xff) as Cell
    case 2 => ((x >> 8) & 0xff) as Cell
    case _ => (x & 0xff) as Cell
  }

  function Rotate8(x: Word): Word {
    (x << 8) | (x >> 24)
  }

  function Rotate16(x: Word): Word {
    (x << 16) | (x >> 16)
  }

  function Rotate24(x: Word): Word {
    (x << 24) | (x >> 8)
  }

  /** `rlwimi` with a source already rotated. */
  function Insert(dst: Word, src: Word, mask: Word): Word {
    (dst & !mask) | (src & mask)
  }

  // ----- the registers of the 12-byte loop -----

  function First(r8: Word, r9: Word): Word {
    Insert(Rotate8(r8), Rotate16(r9), 0x0000_00ff)
  }

  function Second(r8: Word, r9: Word, r10: Word): Word {
    Insert(Insert(r9, Rotate16(Rotate8(r8)), 0x00ff_0000), Rotate8(r10), 0x0000_ff00)
  }

  function Third(r9: Word, r10: Word): Word {
    Insert(Rotate24(r10), Rotate16(r9), 0xff00_0000)
  }

  lemma {:induction false} PartsOfJoin(a: Cell, b: Cell, c: Cell, d: Cell)
    ensures Part(Join(a, b, c, d), 0) == a && Part(Join(a, b, c, d), 1) == b
    ensures Part(Join(a, b, c, d), 2) == c && Part(Join(a, b, c, d), 3) == d
  {
  }

  predicate Small(a: Word) {
    a & 0xffff_ff00 == 0
  }

  lemma {:induction false} CellIsSmall(a: Cell)
    ensures Small(a as Word)
  {
  }

  lemma {:induction false} RotateWords8(a: Word, b: Word, c: Word, d: Word)
    requires Small(a) && Small(b) && Small(c) && Small(d)
    ensures Rotate8(JoinWords(a, b, c, d)) == JoinWords(b, c, d, a)
  {
  }

  lemma {:induction false} RotateWords16(a: Word, b: Word, c: Word, d: Word)
    requires Small(a) && Small(b) && Small(c) && Small(d)
    ensures Rotate16(JoinWords(a, b, c, d)) == JoinWords(c, d, a, b)
  {
    SwapHalves((a << 24) | (b << 16), (c << 8) | d);
  }

  lemma {:induction false} SwapHalves(x: Word, y: Word)
    requires x & 0xffff == 0 && y & 0xffff_0000 == 0
    ensures ((x | y) << 16) | ((x | y) >> 16) == (y << 16) | (x >> 16)
  {
  }

  lemma {:induction false} RotateWords24(a: Word, b: Word, c: Word, d: Word)
    requires Small(a) && Small(b) && Small(c) && Small(d)
    ensures Rotate24(JoinWords(a, b, c, d)) == JoinWords(d, a, b, c)
  {
  }

  lemma {:induction false} RotateJoin(a: Cell, b: Cell, c: Cell, d: Cell)
    ensures Rotate8(Join(a, b, c, d)) == Join(b, c, d, a)
    ensures Rotate16(Join(a, b, c, d)) == Join(c, d, a, b)
    ensures Rotate24(Join(a, b, c, d)) == Join(d, a, b, c)
  {
    hide JoinWords, Rotate8, Rotate16, Rotate24, Small;
    CellIsSmall(a);
    CellIsSmall(b);
    CellIsSmall(c);
    CellIsSmall(d);
    RotateWords8(a as Word, b as Word, c as Word, d as Word);
    RotateWords16(a as Word, b as Word, c as Word, d as Word);
    RotateWords24(a as Word, b as Word, c as Word, d as Word);
  }

  lemma {:induction false} InsertWords0(a: Word, b: Word, c: Word, d: Word, e: Word, f: Word, g: Word, h: Word)
    requires Small(a) && Small(b) && Small(c) && Small(d) && Small(e) && Small(f) && Small(g) && Small(h)
    ensures Insert(JoinWords(a, b, c, d), JoinWords(e, f, g, h), 0xff00_0000) == JoinWords(e, b, c, d)
  {
  }

  lemma {:induction false} InsertWords1(a: Word, b: Word, c: Word, d: Word, e: Word, f: Word, g: Word, h: Word)
    requires Small(a) && Small(b) && Small(c) && Small(d) && Small(e) && Small(f) && Small(g) && Small(h)
    ensures Insert(JoinWords(a, b, c, d), JoinWords(e, f, g, h), 0x00ff_0000) == JoinWords(a, f, c, d)
  {
  }

  lemma {:induction false} InsertWords2(a: Word, b: Word, c: Word, d: Word, e: Word, f: Word, g: Word, h: Word)
    requires Small(a) && Small(b) && Small(c) && Small(d) && Small(e) && Small(f) && Small(g) && Small(h)
    ensures Insert(JoinWords(a, b, c, d), JoinWords(e, f, g, h), 0x0000_ff00) == JoinWords(a, b, g, d)
  {
  }

  lemma {:induction false} InsertWords3(a: Word, b: Word, c: Word, d: Word, e: Word, f: Word, g: Word, h: Word)
    requires Small(a) && Small(b) && Small(c) && Small(d) && Small(e) && Small(f) && Small(g) && Small(h)
    ensures Insert(JoinWords(a, b, c, d), JoinWords(e, f, g, h), 0x0000_00ff) == JoinWords(a, b, c, h)
  {
  }

  lemma {:induction false} InsertJoin(a: Cell, b: Cell, c: Cell, d: Cell, e: Cell, f: Cell, g: Cell, h: Cell)
    ensures Insert(Join(a, b, c, d), Join(e, f, g, h), 0xff00_0000) == Join(e, b, c, d)
    ensures Insert(Join(a, b, c, d), Join(e, f, g, h), 0x00ff_0000) == Join(a, f, c, d)
    ensures Insert(Join(a, b, c, d), Join(e, f, g, h), 0x0000_ff00) == Join(a, b, g, d)
    ensures Insert(Join(a, b, c, d), Join(e, f, g, h), 0x0000_00ff) == Join(a, b, c, h)
  {
    hide JoinWords, Insert, Small;
    CellIsSmall(a);
    CellIsSmall(b);
    CellIsSmall(c);
    CellIsSmall(d);
    CellIsSmall(e);
    CellIsSmall(f);
    CellIsSmall(g);
    CellIsSmall(h);
    InsertWords0(a as Word, b as Word, c as Word, d as Word, e as Word, f as Word, g as Word, h as Word);
    InsertWords1(a as Word, b as Word, c as Word, d as Word, e as Word, f as Word, g as Word, h as Word);
    InsertWords2(a as Word, b as Word, c as Word, d as Word, e as Word, f as Word, g as Word, h as Word);
    InsertWords3(a as Word, b as Word, c as Word, d as Word, e as Word, f as Word, g as Word, h as Word);
  }

  /** `r8` and `r10` are loaded with their bytes reversed. */
  lemma {:induction false} TwelveBytes(b0: Cell, b1: Cell, b2: Cell, b3: Cell, b4: Cell, b5: Cell,
                                       b6: Cell, b7: Cell, b8: Cell, b9: Cell, b10: Cell, b11: Cell)
    ensures var r8, r9, r10 := Join(b3, b2, b1, b0), Join(b4, b5, b6, b7), Join(b11, b10, b9, b8);
            First(r8, r9) == Join(b2, b1, b0, b5) && Second(r8, r9, r10) == Join(b4, b3, b8, b7) && Third(r9, r10) == Join(b6, b11, b10, b9)
  {
    hide Join, Rotate8, Rotate16, Rotate24, Insert;
    RotateJoin(b3, b2, b1, b0);
    RotateJoin(b2, b1, b0, b3);
    RotateJoin(b4, b5, b6, b7);
    RotateJoin(b11, b10, b9, b8);
    InsertJoin(b2, b1, b0, b3, b6, b7, b4, b5);
    InsertJoin(b4, b5, b6, b7, b0, b3, b2, b1);
    InsertJoin(b4, b3, b6, b7, b10, b9, b8, b11);
    InsertJoin(b8, b11, b10, b9, b6, b7, b4, b5);
  }

  // ----- memory -----

  /** Two areas of memory that are the same or apart. */
  ghost predicate Apart(from: nat, to: nat, len: nat) {
    from == to || from + len <= to || to + len <= from
  }

  /** Memory after the first `k` bytes were swapped. */
  ghost function After(m: Cells, from: nat, to: nat, k: nat, w: nat): Cells
    requires w > 0 && from + k <= |m| && to + k <= |m|
  {
    m[..to] + SwabWords(m[from..from + k], w) + m[to + k..]
  }

  method Load(mem: array<Cell>, at: nat) returns (x: Word)
    requires at + 4 <= mem.Length
    ensures x == Join(mem[at], mem[at + 1], mem[at + 2], mem[at + 3])
  {
    x := Join(mem[at], mem[at + 1], mem[at + 2], mem[at + 3]);
  }

  /** `lwbrx` */
  method LoadReversed(mem: array<Cell>, at: nat) returns (x: Word)
    requires at + 4 <= mem.Length
    ensures x == Join(mem[at + 3], mem[at + 2], mem[at + 1], mem[at])
  {
    x := Join(mem[at + 3], mem[at + 2], mem[at + 1], mem[at]);
  }

  method Store(mem: array<Cell>, at: nat, x: Word, ghost a: Cell, ghost b: Cell, ghost c: Cell, ghost d: Cell)
    requires at + 4 <= mem.Length && x == Join(a, b, c, d)
    modifies mem
    ensures mem[at] == a && mem[at + 1] == b && mem[at + 2] == c && mem[at + 3] == d
    ensures forall i | 0 <= i < mem.Length && !(at <= i < at + 4) :: mem[i] == old(mem[i])
  {
    hide Join, Part;
    PartsOfJoin(a, b, c, d);
    mem[at], mem[at + 1], mem[at + 2], mem[at + 3] := Part(x, 0), Part(x, 1), Part(x, 2), Part(x, 3);
  }

  /** The cells that one step reads are still the old ones. */
  lemma {:induction false} Untouched(m: Cells, now: Cells, from: nat, to: nat, len: nat, k: nat, w: nat, i: nat)
    requires w > 0 && Apart(from, to, len) && k <= i < len && from + len <= |m| && to + len <= |m|
    requires Whole(k, w) == k && now == After(m, from, to, k, w)
    ensures |now| == |m| && now[from + i] == m[from + i]
  {
    SwabLength(m[from..from + k], w);
  }

  lemma {:induction false} AfterParts(m: Cells, from: nat, to: nat, k: nat, w: nat)
    requires w > 0 && from + k <= |m| && to + k <= |m| && Whole(k, w) == k
    ensures var s := SwabWords(m[from..from + k], w); var now := After(m, from, to, k, w);
            |s| == k && |now| == |m| && now[..to + k] == m[..to] + s && now[to + k..] == m[to + k..]
  {
    SwabLength(m[from..from + k], w);
  }

  lemma {:induction false} SwabLonger(m: Cells, from: nat, k: nat, n: nat, w: nat)
    requires w > 0 && from + k + n <= |m| && Whole(k, w) == k
    ensures SwabWords(m[from..from + k + n], w) == SwabWords(m[from..from + k], w) + SwabWords(m[from + k..from + k + n], w)
  {
    var a, b := m[from..from + k], m[from + k..from + k + n];
    assert m[from..from + k + n] == a + b;
    SwabConcat(a, b, w);
  }

  lemma {:induction false} CutInThree(s: Cells, a: nat, b: nat)
    requires a <= b <= |s|
    ensures s == s[..a] + s[a..b] + s[b..]
  {
  }

  lemma {:induction false} Regroup(x: Cells, y: Cells, z: Cells, r: Cells)
    ensures (x + y) + z + r == x + (y + z) + r
  {
  }

  /** A step that reverses the next `n` bytes, some whole words, moves on by `n`. */
  lemma {:induction false} Advance(m: Cells, now: Cells, next: Cells, from: nat, to: nat, k: nat, n: nat, w: nat)
    requires w > 0 && from + k + n <= |m| && to + k + n <= |m| && Whole(k, w) == k
    requires now == After(m, from, to, k, w) && |now| == |m| && |next| == |m|
    requires next[to + k..to + k + n] == SwabWords(m[from + k..from + k + n], w)
    requires next[..to + k] == now[..to + k] && next[to + k + n..] == now[to + k + n..]
    ensures next == After(m, from, to, k + n, w)
  {
    hide SwabWords;
    AfterParts(m, from, to, k, w);
    SwabLonger(m, from, k, n, w);
    var sa, sb := SwabWords(m[from..from + k], w), SwabWords(m[from + k..from + k + n], w);
    assert now[to + k + n..] == now[to + k..][n..] && m[to + k + n..] == m[to + k..][n..];
    CutInThree(next, to + k, to + k + n);
    Regroup(m[..to], sa, sb, m[to + k + n..]);
  }

  lemma {:induction false} WholeAdd(k: nat, n: nat, w: nat)
    requires w > 0 && Whole(k, w) == k && Whole(n, w) == n
    ensures Whole(k + n, w) == k + n
    decreases k
  {
    if k > 0 {
      WholeAdd(k - w, n, w);
    }
  }

  // ----- swab24 -----

  ghost predicate Ready(mem: Cells, m: Cells, from: nat, to: nat, len: nat, k: nat, w: nat) {
    w > 0 && k <= len && Apart(from, to, len) && from + len <= |m| && to + len <= |m|
    && Whole(k, w) == k && mem == After(m, from, to, k, w) && |mem| == |m|
  }

  lemma {:induction false} ReadsOld(mem: Cells, m: Cells, from: nat, to: nat, len: nat, k: nat, w: nat, n: nat)
    requires Ready(mem, m, from, to, len, k, w) && k + n <= len
    ensures mem[from + k..from + k + n] == m[from + k..from + k + n]
  {
    hide After, Apart, Whole;
    forall p | from + k <= p < from + k + n ensures mem[p] == m[p] {
      Untouched(m, mem, from, to, len, k, w, p - from);
    }
  }

  lemma {:induction false} StepDone(mem: Cells, next: Cells, m: Cells, from: nat, to: nat, len: nat, k: nat, w: nat, n: nat)
    requires Ready(mem, m, from, to, len, k, w) && k + n <= len && Whole(n, w) == n && |next| == |m|
    requires next[to + k..to + k + n] == SwabWords(mem[from + k..from + k + n], w)
    requires next[..to + k] == mem[..to + k] && next[to + k + n..] == mem[to + k + n..]
    ensures Ready(next, m, from, to, len, k + n, w)
  {
    hide After, Apart, Whole, SwabWords;
    ReadsOld(mem, m, from, to, len, k, w, n);
    Advance(m, mem, next, from, to, k, n, w);
    WholeAdd(k, n, w);
  }

  lemma {:induction false} FourTriples(s: Cells)
    requires |s| == 12
    ensures SwabWords(s, 3) == [s[2], s[1], s[0], s[5], s[4], s[3], s[8], s[7], s[6], s[11], s[10], s[9]] && Whole(12, 3) == 12
  {
    OneTriple(s[..3]);
    OneTriple(s[3..6]);
    OneTriple(s[6..9]);
    OneTriple(s[9..]);
    assert s == s[..3] + s[3..] && s[3..] == s[3..6] + s[6..] && s[6..] == s[6..9] + s[9..] && s[9..] == s[9..] + [];
    SwabStep(s[..3], s[3..], 3);
    SwabStep(s[3..6], s[6..], 3);
    SwabStep(s[6..9], s[9..], 3);
    SwabStep(s[9..], [], 3);
  }

  lemma {:induction false} OneTriple(s: Cells)
    requires |s| == 3
    ensures Reverse(s) == [s[2], s[1], s[0]]
  {
  }

  /** One turn of the unrolled loop: four 3-byte words. */
  method SwapTwelve(mem: array<Cell>, src: nat, dst: nat)
    requires src + 12 <= mem.Length && dst + 12 <= mem.Length
    modifies mem
    ensures mem[dst..dst + 12] == SwabWords(old(mem[src..src + 12]), 3)
    ensures mem[..dst] == old(mem[..dst]) && mem[dst + 12..] == old(mem[dst + 12..])
  {
    hide SwabWords, Join, First, Second, Third;
    ghost var s := mem[src..src + 12];
    FourTriples(s);
    var r8 := LoadReversed(mem, src);
    var r9 := Load(mem, src + 4);
    var r10 := LoadReversed(mem, src + 8);
    TwelveBytes(s[0], s[1], s[2], s[3], s[4], s[5], s[6], s[7], s[8], s[9], s[10], s[11]);
    StoreThree(mem, dst, First(r8, r9), Second(r8, r9, r10), Third(r9, r10),
               [s[2], s[1], s[0], s[5], s[4], s[3], s[8], s[7], s[6], s[11], s[10], s[9]]);
  }

  method StoreThree(mem: array<Cell>, at: nat, x: Word, y: Word, z: Word, ghost t: Cells)
    requires at + 12 <= mem.Length && |t| == 12
    requires x == Join(t[0], t[1], t[2], t[3]) && y == Join(t[4], t[5], t[6], t[7]) && z == Join(t[8], t[9], t[10], t[11])
    modifies mem
    ensures mem[at..at + 12] == t && mem[..at] == old(mem[..at]) && mem[at + 12..] == old(mem[at + 12..])
  {
    hide Join;
    Store(mem, at, x, t[0], t[1], t[2], t[3]);
    Store(mem, at + 4, y, t[4], t[5], t[6], t[7]);
    Store(mem, at + 8, z, t[8], t[9], t[10], t[11]);
  }

  method SwapThree(mem: array<Cell>, src: nat, dst: nat)
    requires src + 3 <= mem.Length && dst + 3 <= mem.Length
    modifies mem
    ensures mem[dst..dst + 3] == SwabWords(old(mem[src..src + 3]), 3)
    ensures mem[..dst] == old(mem[..dst]) && mem[dst + 3..] == old(mem[dst + 3..])
  {
    hide SwabWords;
    ghost var s := mem[src..src + 3];
    OneTriple(s);
    assert s + [] == s;
    SwabStep(s, [], 3);
    NoWords(3);
    var r7, r8, r9 := mem[src], mem[src + 1], mem[src + 2];
    mem[dst + 2] := r7;
    mem[dst + 1] := r8;
    mem[dst] := r9;
  }

  lemma {:induction false} NoWords(w: nat)
    requires w > 0
    ensures SwabWords([], w) == []
  {
  }

  method NextFour(mem: array<Cell>, from: nat, to: nat, len: nat, k: nat, ghost m: Cells) returns (k': nat)
    requires Ready(mem[..], m, from, to, len, k, 3) && k + 12 <= len
    modifies mem
    ensures k' == k + 12 && Ready(mem[..], m, from, to, len, k', 3)
  {
    hide After, SwabWords, Apart;
    ghost var now := mem[..];
    SwapTwelve(mem, from + k, to + k);
    FourTriples(now[from + k..from + k + 12]);
    StepDone(now, mem[..], m, from, to, len, k, 3, 12);
    k' := k + 12;
  }

  method NextTriple(mem: array<Cell>, from: nat, to: nat, len: nat, k: nat, ghost m: Cells) returns (k': nat)
    requires Ready(mem[..], m, from, to, len, k, 3) && k + 3 <= len
    modifies mem
    ensures k' == k + 3 && Ready(mem[..], m, from, to, len, k', 3)
  {
    hide After, SwabWords, Apart;
    ghost var now := mem[..];
    SwapThree(mem, from + k, to + k);
    StepDone(now, mem[..], m, from, to, len, k, 3, 3);
    k' := k + 3;
  }

  /** The unrolled loop and then the loop over the words that are left. */
  method Swab24(mem: array<Cell>, from: nat, to: nat, len: nat)
    requires from + len <= mem.Length && to + len <= mem.Length && Apart(from, to, len)
    modifies mem
    ensures mem[..] == After(old(mem[..]), from, to, Whole(len, 3), 3)
  {
    hide Ready, After, SwabWords, Apart;
    var words := len / 3;
    var fours, left := words / 4, words % 4;
    ghost var m := mem[..];
    var k := 0;
    ReadyAtStart(m, from, to, len, 3);
    for i := 0 to fours
      invariant k == 12 * i && Ready(mem[..], m, from, to, len, k, 3)
    {
      k := NextFour(mem, from, to, len, k, m);
    }
    for i := 0 to left
      invariant k == 12 * fours + 3 * i && Ready(mem[..], m, from, to, len, k, 3)
    {
      k := NextTriple(mem, from, to, len, k, m);
    }
    assert k == 3 * words;
    WholeIsProduct(len, 3, words);
    ReadyAtEnd(mem[..], m, from, to, len, k, 3);
  }

  lemma {:induction false} ReadyAtStart(m: Cells, from: nat, to: nat, len: nat, w: nat)
    requires w > 0 && from + len <= |m| && to + len <= |m| && Apart(from, to, len)
    ensures Ready(m, m, from, to, len, 0, w)
  {
    assert m[from..from + 0] == [];
  }

  lemma {:induction false} ReadyAtEnd(mem: Cells, m: Cells, from: nat, to: nat, len: nat, k: nat, w: nat)
    requires Ready(mem, m, from, to, len, k, w)
    ensures mem == After(m, from, to, k, w)
  {
  }

  lemma {:induction false} WholeIsProduct(n: nat, w: nat, q: nat)
    requires w > 0 && q * w <= n < q * w + w
    ensures Whole(n, w) == q * w
    decreases q
  {
    if q > 0 {
      assert q * w == (q - 1) * w + w;
      WholeIsProduct(n - w, w, q - 1);
    }
  }

  /** In place, a second call gives the memory back. */
  lemma {:induction false} AfterTwice(m: Cells, at: nat, len: nat, w: nat)
    requires w > 0 && at + len <= |m|
    ensures var k := Whole(len, w); var once := After(m, at, at, k, w);
            |once| == |m| && After(once, at, at, k, w) == m
  {
    hide SwabWords;
    var k := Whole(len, w);
    WholeWhole(len, w);
    AfterParts(m, at, at, k, w);
    var once := After(m, at, at, k, w);
    var s := m[at..at + k];
    assert once[at..at + k] == once[..at + k][at..] == SwabWords(s, w);
    SwabTwice(s, w);
    assert s[..k] == s;
    assert once[..at] == once[..at + k][..at] == m[..at];
  }

  lemma {:induction false} WholeWhole(n: nat, w: nat)
    requires w > 0
    ensures Whole(Whole(n, w), w) == Whole(n, w)
    decreases n
  {
    if n >= w {
      WholeWhole(n - w, w);
    }
  }

  // ----- swab64 -----

  lemma {:induction false} EightBytes(s: Cells)
    requires |s| == 8
    ensures SwabWords(s, 8) == [s[7], s[6], s[5], s[4], s[3], s[2], s[1], s[0]] && Whole(8, 8) == 8
  {
    assert s + [] == s;
    SwabStep(s, [], 8);
  }

  /** Two reversed loads, stored the other way round. */
  method SwapEight(mem: array<Cell>, src: nat, dst: nat)
    requires src + 8 <= mem.Length && dst + 8 <= mem.Length
    modifies mem
    ensures mem[dst..dst + 8] == SwabWords(old(mem[src..src + 8]), 8)
    ensures mem[..dst] == old(mem[..dst]) && mem[dst + 8..] == old(mem[dst + 8..])
  {
    hide SwabWords, Join;
    ghost var s := mem[src..src + 8];
    EightBytes(s);
    var r8 := LoadReversed(mem, src);
    var r9 := LoadReversed(mem, src + 4);
    Store(mem, dst + 4, r8, s[3], s[2], s[1], s[0]);
    Store(mem, dst, r9, s[7], s[6], s[5], s[4]);
  }

  /** One word at a time until a multiple of four is left, then four in each turn. */
  method Swab64(mem: array<Cell>, from: nat, to: nat, len: nat)
    requires from + len <= mem.Length && to + len <= mem.Length && Apart(from, to, len)
    modifies mem
    ensures mem[..] == After(old(mem[..]), from, to, Whole(len, 8), 8)
  {
    hide Ready, After, SwabWords, Apart;
    var words := len / 8;
    var pre, loops := words % 4, words / 4;
    ghost var m := mem[..];
    var k := 0;
    ReadyAtStart(m, from, to, len, 8);
    for i := 0 to pre
      invariant k == 8 * i && Ready(mem[..], m, from, to, len, k, 8)
    {
      k := NextWord(mem, from, to, len, k, m);
    }
    for i := 0 to loops
      invariant k == 8 * pre + 32 * i && Ready(mem[..], m, from, to, len, k, 8)
    {
      k := NextWord(mem, from, to, len, k, m);
      k := NextWord(mem, from, to, len, k, m);
      k := NextWord(mem, from, to, len, k, m);
      k := NextWord(mem, from, to, len, k, m);
    }
    assert k == 8 * words;
    WholeIsProduct(len, 8, words);
    ReadyAtEnd(mem[..], m, from, to, len, k, 8);
  }

  method NextWord(mem: array<Cell>, from: nat, to: nat, len: nat, k: nat, ghost m: Cells) returns (k': nat)
    requires Ready(mem[..], m, from, to, len, k, 8) && k + 8 <= len
    modifies mem
    ensures k' == k + 8 && Ready(mem[..], m, from, to, len, k', 8)
  {
    hide After, SwabWords, Apart;
    ghost var now := mem[..];
    SwapEight(mem, from + k, to + k);
    EightBytes(now[from + k..from + k + 8]);
    StepDone(now, mem[..], m, from, to, len, k, 8, 8);
    k' := k + 8;
  }
}
