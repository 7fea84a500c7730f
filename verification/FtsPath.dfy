/**
 * The path buffer that all nodes of an fts stream share: a block of characters whose size
 * is a power of two, holding a NUL-terminated string.
 */
module FtsPath {
  import opened FtsSpec

  /** The C string at the start of a block. */
  function CString(buf: seq<char>): string {
    if buf == [] || buf[0] == '\0' then [] else [buf[0]] + CString(buf[1..])
  }

  ghost predicate Spells(buf: seq<char>, s: string) {
    && |s| < |buf|
    && buf[..|s|] == s
    && buf[|s|] == '\0'
    && '\0' !in s
  }

  lemma {:induction false} SpellsIsCString(buf: seq<char>, s: string)
    requires Spells(buf, s)
    ensures CString(buf) == s
  {
    if s != [] {
      assert buf[0] == buf[..|s|][0] == s[0];
      assert buf[1..][..|s| - 1] == s[1..];
      SpellsIsCString(buf[1..], s[1..]);
    }
  }

  /** `memmove` of a string with its NUL to offset `at`. */
  function PutString(buf: seq<char>, at: nat, s: string): (r: seq<char>)
    requires at + |s| < |buf|
    ensures |r| == |buf| && r[..at] == buf[..at] && r[..at + |s|] == buf[..at] + s && r[at + |s|] == '\0'
  {
    buf[..at] + s + ['\0'] + buf[at + |s| + 1..]
  }

  /** The macro NAPPEND on a block holding a path of length `pathlen`. */
  function NAppend(buf: seq<char>, pathlen: nat): nat
    requires 0 < pathlen <= |buf|
  {
    if buf[pathlen - 1] == '/' then pathlen - 1 else pathlen
  }

  /** What `fts_build` puts in front of a child's name: it looks for ':' where the name will go. */
  function BuildBase(path: string): string
    requires |path| > 1 || (|path| == 1 && path[0] != '/')
  {
    var n := NAppend(path, |path|);
    if path[n - 1] == ':' then path[..n] else path[..n] + "/"
  }

  /** What `fts_read` puts there: it looks at the end of the path. */
  function ReadBase(path: string): string
    requires path != ""
  {
    var n := NAppend(path, |path|);
    if path[|path| - 1] == ':' then path[..n] else path[..n] + "/"
  }

  predicate EndsIn(path: string, c: char) {
    |path| > 0 && path[|path| - 1] == c
  }

  /** The two agree, and on `Base`, exactly when the path does not end in ":/".  For "/" the first
      one looks in front of the buffer. */
  lemma {:induction false} BasesAgreeIff(path: string)
    requires path != ""
    ensures NAppend(path, |path|) == 0 <==> path == "/"
    ensures path != "/" ==>
              (BuildBase(path) == ReadBase(path) <==> !(EndsIn(path, '/') && EndsIn(path[..|path| - 1], ':')))
    ensures path != "/" && BuildBase(path) == ReadBase(path) ==> BuildBase(path) == Base(path)
  {
    var n := NAppend(path, |path|);
    if EndsIn(path, '/') {
      assert path == path[..n] + "/";
    } else {
      assert path[..n] == path;
    }
  }

  /** What both `fts_build` and `fts_read` do to make room for a child's name: the two
      tests for ':' look at different characters, yet agree. */
  lemma {:induction false} NAppendIsBase(buf: seq<char>, path: string)
    requires PathOk(path) && |path| < |buf| && buf[..|path|] == path
    ensures var n := NAppend(buf, |path|);
            && 0 < n
            && (buf[n - 1] == ':' <==> buf[|path| - 1] == ':')
            && Base(path) == (if buf[n - 1] == ':' then path[..n] else path[..n] + "/")
            && buf[..n] == path[..n]
  {
    assert buf[|path| - 1] == path[|path| - 1];
    if path[|path| - 1] == '/' {
      assert buf[|path| - 2] == path[|path| - 2];
      assert path == path[..|path| - 1] + "/";
    } else {
      assert path == path[..|path|];
    }
  }

  lemma {:induction false} BaseExtends(path: string)
    ensures path <= Base(path) && |Base(path)| <= |path| + 1
    ensures '\0' !in path ==> '\0' !in Base(path)
  {
  }

  /** The block size for a request. */
  function Pow2Ceil(n: nat): (r: nat)
    ensures r >= n && r > 0 && IsPow2(r) && (n > 1 ==> r < 2 * n)
  {
    if n <= 1 then 1 else 2 * Pow2Ceil((n + 1) / 2)
  }

  predicate IsPow2(n: nat) {
    n == 1 || (n > 1 && n % 2 == 0 && IsPow2(n / 2))
  }

  /** `fts_pow2` as the code computes it, on 32-bit words. */
  function Pow2Bits(x: bv32): bv32 {
    var x1 := x - 1;
    var x2 := x1 | (x1 >> 1);
    var x3 := x2 | (x2 >> 2);
    var x4 := x3 | (x3 >> 4);
    var x5 := x4 | (x4 >> 8);
    var x6 := x5 | (x5 >> 16);
    x6 + 1
  }

  /** It is the least power of two not below `x`, as long as that fits into a word. */
  lemma {:induction false} Pow2BitsRounds(x: bv32)
    ensures var r := Pow2Bits(x);
            if 0 < x <= 0x8000_0000 then r & (r - 1) == 0 && r >> 1 < x <= r else r == 0
  {
  }

  // ----- the code's rounding is the block size -----

  function Half(x: bv32): bv32 {
    x >> 1
  }

  function Twice(x: bv32): bv32 {
    x << 1
  }

  function TwiceMore(x: bv32): bv32 {
    (x << 1) | 1
  }

  /** The steps of `fts_pow2` between the decrement and the increment. */
  function Smear(x1: bv32): bv32 {
    var x2 := x1 | (x1 >> 1);
    var x3 := x2 | (x2 >> 2);
    var x4 := x3 | (x3 >> 4);
    var x5 := x4 | (x4 >> 8);
    x5 | (x5 >> 16)
  }

  /** A word as a number. */
  function Number(x: bv32): nat {
    x as nat
  }

  lemma {:induction false} DoubledIs(x: bv32)
    requires x < 0x8000_0000
    ensures (x << 1) as nat == 2 * (x as nat)
  {
  }

  lemma {:induction false} DoubledMoreIs(x: bv32)
    requires x < 0x8000_0000
    ensures ((x << 1) | 1) as nat == 2 * (x as nat) + 1
  {
  }

  lemma {:induction false} TwiceIs(x: bv32)
    requires x < 0x8000_0000
    ensures Number(Twice(x)) == 2 * Number(x) && Number(TwiceMore(x)) == 2 * Number(x) + 1
  {
    DoubledIs(x);
    DoubledMoreIs(x);
  }

  lemma {:induction false} HalfBits(x: bv32)
    ensures Half(x) < 0x8000_0000 && (x == Twice(Half(x)) || x == TwiceMore(Half(x))) && (x != 0 && Half(x) == 0 ==> x == 1)
  {
  }

  lemma {:induction false} HalfIs(x: bv32)
    ensures Number(x) == 2 * Number(Half(x)) + (if x == Twice(Half(x)) then 0 else 1)
    ensures x != 0 ==> Number(Half(x)) < Number(x)
  {
    hide Half, Twice, TwiceMore, Number;
    HalfBits(x);
    TwiceIs(Half(x));
    ZeroIs(x);
  }

  lemma {:induction false} ZeroIs(x: bv32)
    ensures x == 0 <==> Number(x) == 0
  {
  }

  function Inc(x: bv32): bv32 {
    x + 1
  }

  lemma {:induction false} IncBits(x: bv32)
    requires x != 0xffff_ffff
    ensures x == Twice(Half(x)) ==> Inc(x) == TwiceMore(Half(x))
    ensures x != Twice(Half(x)) ==> Half(x) < 0x7fff_ffff && Inc(Half(x)) < 0x8000_0000 && Inc(x) == Twice(Inc(Half(x)))
  {
  }

  lemma {:induction false} IncIs(x: bv32)
    requires x != 0xffff_ffff
    ensures Number(Inc(x)) == Number(x) + 1
    decreases Number(x)
  {
    hide Half, Twice, TwiceMore, Inc, Number;
    IncBits(x);
    HalfBits(x);
    HalfIs(x);
    TwiceIs(Half(x));
    if x != Twice(Half(x)) {
      OddIsNotZero(x);
      NotAllOnes(Half(x));
      IncIs(Half(x));
      TwiceIs(Inc(Half(x)));
    }
  }

  lemma {:induction false} OddIsNotZero(x: bv32)
    requires x != Twice(Half(x))
    ensures x != 0
  {
  }

  lemma {:induction false} NotAllOnes(x: bv32)
    requires x < 0x8000_0000
    ensures x != 0xffff_ffff
  {
  }

  lemma {:induction false} SmearBits(x: bv32)
    requires x < 0x8000_0000
    ensures Smear(x) < 0x8000_0000 && Smear(Half(x)) < 0x8000_0000 && (x != 0 ==> Smear(x) == TwiceMore(Smear(Half(x))))
    ensures x == 0 ==> Smear(x) == 0
  {
  }

  lemma {:induction false} SmearIs(x: bv32)
    requires x < 0x8000_0000
    ensures Number(Smear(x)) + 1 == Pow2Ceil(Number(x) + 1)
    decreases Number(x)
  {
    hide Half, Twice, TwiceMore, Smear, Number;
    SmearBits(x);
    ZeroIs(x);
    if x != 0 {
      HalfIs(x);
      HalfBits(x);
      SmearIs(Half(x));
      TwiceIs(Smear(Half(x)));
    }
  }

  lemma {:induction false} Pow2BitsParts(x: bv32)
    requires 0 < x <= 0x8000_0000
    ensures x - 1 < 0x8000_0000 && Inc(x - 1) == x && Pow2Bits(x) == Inc(Smear(x - 1)) && Smear(x - 1) < 0x8000_0000
  {
  }

  /** On words the code computes the block size that the model uses. */
  lemma {:induction false} Pow2BitsIsCeil(x: bv32)
    requires 0 < x <= 0x8000_0000
    ensures Number(Pow2Bits(x)) == Pow2Ceil(Number(x))
  {
    hide Pow2Bits, Pow2Ceil, Smear, Inc, Number;
    Pow2BitsParts(x);
    NotAllOnes(x - 1);
    NotAllOnes(Smear(x - 1));
    IncIs(x - 1);
    IncIs(Smear(x - 1));
    SmearIs(x - 1);
  }
}
