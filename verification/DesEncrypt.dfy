/** `encrypt`: 64 characters hold a block's bits, and decryption runs the round keys backwards. */
module DesEncrypt {
  import opened Common
  import opened Des

  type Char = bv8
  type Bits = seq<Char>

  // ----- bits and words -----

  function BitOf(c: Char): Word {
    (c & 1) as Word
  }

  function Append(x: Word, b: Word): Word {
    (x << 1) | b
  }

  /** The word of some characters' low bits, the highest first. */
  function Pack(s: Bits): Word {
    if s == [] then 0 else Append(Pack(s[..|s| - 1]), BitOf(s[|s| - 1]))
  }

  function LowBit(x: Word): Char {
    (x & 1) as Char
  }

  function Half(x: Word): Word {
    x >> 1
  }

  /** The `n` lowest bits of a word as characters. */
  function Unpack(x: Word, n: nat): (s: Bits)
    ensures |s| == n
  {
    if n == 0 then [] else Unpack(Half(x), n - 1) + [LowBit(x)]
  }

  function LowBits(s: Bits): Bits {
    seq(|s|, i requires 0 <= i < |s| => s[i] & 1)
  }

  /** `n` ones. */
  function Mask(n: nat): Word {
    match n
    case 0 => 0x0
    case 1 => 0x1
    case 2 => 0x3
    case 3 => 0x7
    case 4 => 0xf
    case 5 => 0x1f
    case 6 => 0x3f
    case 7 => 0x7f
    case 8 => 0xff
    case 9 => 0x1ff
    case 10 => 0x3ff
    case 11 => 0x7ff
    case 12 => 0xfff
    case 13 => 0x1fff
    case 14 => 0x3fff
    case 15 => 0x7fff
    case 16 => 0xffff
    case 17 => 0x1ffff
    case 18 => 0x3ffff
    case 19 => 0x7ffff
    case 20 => 0xfffff
    case 21 => 0x1fffff
    case 22 => 0x3fffff
    case 23 => 0x7fffff
    case 24 => 0xffffff
    case 25 => 0x1ffffff
    case 26 => 0x3ffffff
    case 27 => 0x7ffffff
    case 28 => 0xfffffff
    case 29 => 0x1fffffff
    case 30 => 0x3fffffff
    case 31 => 0x7fffffff
    case _ => 0xffff_ffff
  }

  lemma {:induction false} MaskHalf(n: nat)
    requires 1 <= n <= 32
    ensures Half(Mask(n)) == Mask(n - 1) && Mask(n) & 1 == 1
  {
  }

  // ----- they are inverse -----

  lemma {:induction false} PackStep(x: Word, m: Word)
    requires m & 1 == 1
    ensures Append(Half(x) & Half(m), BitOf(LowBit(x))) == x & m
  {
  }

  /** Packing the bits of a word gives its low bits back. */
  lemma {:induction false} PackUnpack(x: Word, n: nat)
    requires n <= 32
    ensures Pack(Unpack(x, n)) == x & Mask(n)
    decreases n
  {
    hide Append, BitOf, LowBit, Half, Mask;
    if n == 0 {
      assert Mask(0) == 0 by { MaskEnds(); }
    } else {
      PackUnpack(Half(x), n - 1);
      var s := Unpack(x, n);
      assert s[..n - 1] == Unpack(Half(x), n - 1);
      MaskHalf(n);
      PackStep(x, Mask(n));
    }
  }

  lemma {:induction false} MaskEnds()
    ensures Mask(0) == 0 && Mask(32) == 0xffff_ffff
  {
  }

  lemma {:induction false} AppendFits(x: Word, c: Char, m: Word)
    requires m & 1 == 1 && x & Half(m) == x
    ensures Append(x, BitOf(c)) & m == Append(x, BitOf(c)) && LowBit(Append(x, BitOf(c))) == c & 1
    ensures Half(Append(x, BitOf(c))) == x
  {
  }

  /** Unpacking a packed block gives the characters' low bits. */
  lemma {:induction false} UnpackPack(s: Bits)
    requires |s| <= 32
    ensures Unpack(Pack(s), |s|) == LowBits(s) && Pack(s) & Mask(|s|) == Pack(s)
    decreases |s|
  {
    hide Append, BitOf, LowBit, Half, Mask;
    if s == [] {
      MaskEnds();
    } else {
      var n := |s|;
      var front := s[..n - 1];
      UnpackPack(front);
      MaskHalf(n);
      AppendFits(Pack(front), s[n - 1], Mask(n));
      assert LowBits(s) == LowBits(front) + [s[n - 1] & 1];
    }
  }

  // ----- encrypt -----

  function BlockHalves(block: Bits): Halves
    requires |block| == 64
  {
    Halves(Pack(block[..32]), Pack(block[32..]))
  }

  function HalvesBlock(h: Halves): (block: Bits)
    ensures |block| == 64
  {
    Unpack(h.l, 32) + Unpack(h.r, 32)
  }

  /** What `encrypt` leaves in the block. */
  function Encrypted(boxes: Boxes, ks: seq<RoundKey>, block: Bits, decrypt: bool): (r: Bits)
    requires |block| == 64
    ensures |r| == 64
  {
    HalvesBlock(DoDes(boxes, 0, if decrypt then Reverse(ks) else ks, 1, BlockHalves(block)))
  }

  lemma {:induction false} HalvesBack(h: Halves)
    ensures BlockHalves(HalvesBlock(h)) == h
  {
    hide Pack, Unpack, Mask;
    var block := HalvesBlock(h);
    assert block[..32] == Unpack(h.l, 32) && block[32..] == Unpack(h.r, 32);
    PackUnpack(h.l, 32);
    PackUnpack(h.r, 32);
    MaskEnds();
    AllOnes(h.l);
    AllOnes(h.r);
  }

  lemma {:induction false} AllOnes(x: Word)
    ensures x & 0xffff_ffff == x
  {
  }

  lemma {:induction false} BlockBack(block: Bits)
    requires |block| == 64
    ensures HalvesBlock(BlockHalves(block)) == LowBits(block)
  {
    hide Pack, Unpack, Mask;
    UnpackPack(block[..32]);
    UnpackPack(block[32..]);
    assert LowBits(block) == LowBits(block[..32]) + LowBits(block[32..]);
  }

  /** Decrypting an encrypted block, or encrypting a decrypted one, gives the block's bits back. */
  lemma {:induction false} EncryptBack(boxes: Boxes, ks: seq<RoundKey>, block: Bits, decrypt: bool)
    requires |block| == 64
    ensures Encrypted(boxes, ks, Encrypted(boxes, ks, block, decrypt), !decrypt) == LowBits(block)
    ensures (forall i | 0 <= i < 64 :: block[i] == 0 || block[i] == 1) ==>
              Encrypted(boxes, ks, Encrypted(boxes, ks, block, decrypt), !decrypt) == block
  {
    hide DoDes, BlockHalves, HalvesBlock;
    var h := BlockHalves(block);
    DesBack(boxes, 0, ks, 1, h);
    HalvesBack(DoDes(boxes, 0, if decrypt then Reverse(ks) else ks, 1, h));
    BlockBack(block);
    if forall i | 0 <= i < 64 :: block[i] == 0 || block[i] == 1 {
      ZeroOneBlock(block);
    }
  }

  lemma {:induction false} ZeroOneBlock(block: Bits)
    requires forall i | 0 <= i < |block| :: block[i] == 0 || block[i] == 1
    ensures LowBits(block) == block
  {
  }

  // ----- the code -----

  function Double(x: Word): Word {
    x << 1
  }

  function ShiftL(x: Word, n: nat): Word {
    if n == 0 then x else Double(ShiftL(x, n - 1))
  }

  function ShiftR(x: Word, n: nat): Word {
    if n == 0 then x else Half(ShiftR(x, n - 1))
  }

  function Or2(a: Word, b: Word): Word {
    a | b
  }

  lemma {:induction false} ShiftAppend(x: Word, b: Word, n: nat)
    ensures ShiftL(Append(x, b), n) == Or2(ShiftL(x, n + 1), ShiftL(b, n))
    decreases n
  {
    hide Append, Or2, Double;
    if n == 0 {
      AppendIsOr(x, b);
    } else {
      ShiftAppend(x, b, n - 1);
      DoubleOr(ShiftL(x, n), ShiftL(b, n - 1));
    }
  }

  lemma {:induction false} AppendIsOr(x: Word, b: Word)
    ensures Append(x, b) == Or2(Double(x), b)
  {
  }

  lemma {:induction false} DoubleOr(a: Word, b: Word)
    ensures Double(Or2(a, b)) == Or2(Double(a), Double(b))
  {
  }

  lemma {:induction false} ShiftZero(n: nat)
    ensures ShiftL(0, n) == 0
    decreases n
  {
    if n > 0 {
      ShiftZero(n - 1);
    }
  }

  lemma {:induction false} UnpackAt(x: Word, n: nat, k: nat)
    requires k < n
    ensures Unpack(x, n)[k] == LowBit(ShiftR(x, n - 1 - k))
    decreases n
  {
    hide Half, LowBit;
    if k < n - 1 {
      UnpackAt(Half(x), n - 1, k);
      ShiftInside(x, n - 2 - k);
    }
  }

  lemma {:induction false} ShiftInside(x: Word, n: nat)
    ensures ShiftR(Half(x), n) == ShiftR(x, n + 1)
    decreases n
  {
    hide Half;
    if n > 0 {
      ShiftInside(x, n - 1);
    }
  }

  /** The static round keys, and the call that uses them. */
  class Encryptor {
    const boxes: Boxes
    var key: seq<RoundKey>

    constructor (boxes: Boxes, key: seq<RoundKey>)
      ensures this.boxes == boxes && this.key == key
    {
      this.boxes := boxes;
      this.key := key;
    }

    method ReadHalf(block: array<Char>, from: nat) returns (b: Word)
      requires from + 32 <= block.Length
      ensures b == Pack(block[from..from + 32])
    {
      hide Append, BitOf, Or2, ShiftL;
      b := 0;
      ghost var s := block[from..from + 32];
      ShiftZero(32);
      for k := 0 to 32
        invariant b == ShiftL(Pack(s[..k]), 32 - k)
      {
        assert s[..k + 1][..k] == s[..k] && s[..k + 1][k] == block[from + k];
        ShiftAppend(Pack(s[..k]), BitOf(block[from + k]), 31 - k);
        b := Or2(b, ShiftL(BitOf(block[from + k]), 31 - k));
      }
      assert s[..32] == s;
      NoShift(b, Pack(s));
    }

    method WriteHalf(block: array<Char>, from: nat, b: Word)
      requires from + 32 <= block.Length
      modifies block
      ensures block[..] == old(block[..from]) + Unpack(b, 32) + old(block[from + 32..])
    {
      hide ShiftR, LowBit;
      for k := 0 to 32
        invariant forall i | 0 <= i < k :: block[from + i] == Unpack(b, 32)[i]
        invariant forall i | 0 <= i < block.Length && !(from <= i < from + k) :: block[i] == old(block[i])
      {
        UnpackAt(b, 32, k);
        block[from + k] := LowBit(ShiftR(b, 31 - k));
      }
    }

    method Encrypt(block: array<Char>, edflag: bool)
      requires block.Length == 64 && |key| == 16
      modifies block
      ensures block[..] == Encrypted(boxes, key, old(block[..]), edflag)
    {
      hide DoDes, Pack, Unpack;
      ghost var was := block[..];
      var b0 := ReadHalf(block, 0);
      var b1 := ReadHalf(block, 32);
      assert block[0..32] == was[..32] && block[32..64] == was[32..];
      var ks := key;
      if edflag {
        var k := key;
        ks := seq(16, i requires 0 <= i < 16 => k[15 - i]);
        assert ks == Reverse(key);
      }
      var h := DoDesLoops(boxes, 0, ks, 1, Halves(b0, b1));
      WriteHalf(block, 0, h.l);
      ghost var mid := block[..];
      WriteHalf(block, 32, h.r);
      assert mid[..32] == Unpack(h.l, 32);
      assert block[..] == mid[..32] + Unpack(h.r, 32);
    }
  }

  lemma {:induction false} NoShift(b: Word, x: Word)
    requires b == ShiftL(x, 0)
    ensures b == x
  {
  }
}
