/**
 * `__do_des`: salted, iterated DES over arbitrary round keys and S-boxes, and the `encrypt`
 * call that decrypts with the round keys reversed.
 */
module Des {
  import opened Common
  import opened DesTables

  /** `psbox`: entry `j` of box `i`. */
  type Boxes = (nat, Word) -> Word

  datatype RoundKey = RoundKey(kl: Word, kr: Word)

  datatype Halves = Halves(l: Word, r: Word)

  // ----- one round -----

  function ExpandL(r: Word): Word {
    ((r & 0x0000_0001) << 23) | ((r & 0xf800_0000) >> 9) | ((r & 0x1f80_0000) >> 11)
    | ((r & 0x01f8_0000) >> 13) | ((r & 0x001f_8000) >> 15)
  }

  function ExpandR(r: Word): Word {
    ((r & 0x0001_f800) << 7) | ((r & 0x0000_1f80) << 5) | ((r & 0x0000_01f8) << 3)
    | ((r & 0x0000_001f) << 1) | ((r & 0x8000_0000) >> 31)
  }

  /** The round function: expansion, salting, the key and the S-boxes. */
  function F(boxes: Boxes, salt: Word, r: Word, k: RoundKey): Word {
    var el, er := ExpandL(r), ExpandR(r);
    var f := (el ^ er) & salt;
    var l48, r48 := el ^ (f ^ k.kl), er ^ (f ^ k.kr);
    boxes(0, l48 >> 18) | boxes(1, (l48 >> 12) & 0x3f) | boxes(2, (l48 >> 6) & 0x3f) | boxes(3, l48 & 0x3f)
    | boxes(4, r48 >> 18) | boxes(5, (r48 >> 12) & 0x3f) | boxes(6, (r48 >> 6) & 0x3f) | boxes(7, r48 & 0x3f)
  }

  lemma {:induction false} XorTwice(a: Word, b: Word)
    ensures Xor(a, Xor(a, b)) == b
  {
  }

  function Round(boxes: Boxes, salt: Word, k: RoundKey, h: Halves): Halves {
    Halves(h.r, Xor(F(boxes, salt, h.r, k), h.l))
  }

  function Swap(h: Halves): Halves {
    Halves(h.r, h.l)
  }

  /** A round undoes itself between swaps. */
  lemma {:induction false} RoundTwice(boxes: Boxes, salt: Word, k: RoundKey, h: Halves)
    ensures Round(boxes, salt, k, Swap(Round(boxes, salt, k, h))) == Swap(h)
  {
    hide F, Xor;
    XorTwice(F(boxes, salt, h.r, k), h.l);
  }

  // ----- all rounds -----

  function Rounds(boxes: Boxes, salt: Word, ks: seq<RoundKey>, h: Halves): Halves {
    if ks == [] then h else Rounds(boxes, salt, ks[1..], Round(boxes, salt, ks[0], h))
  }

  lemma {:induction false} RoundsSnoc(boxes: Boxes, salt: Word, ks: seq<RoundKey>, k: RoundKey, h: Halves)
    ensures Rounds(boxes, salt, ks + [k], h) == Round(boxes, salt, k, Rounds(boxes, salt, ks, h))
    decreases ks
  {
    hide Round;
    if ks == [] {
      assert [] + [k] == [k] && [k][1..] == [];
    } else {
      assert (ks + [k])[1..] == ks[1..] + [k];
      RoundsSnoc(boxes, salt, ks[1..], k, Round(boxes, salt, ks[0], h));
    }
  }

  /** The rounds with the keys reversed lead back. */
  lemma {:induction false} RoundsBack(boxes: Boxes, salt: Word, ks: seq<RoundKey>, h: Halves)
    ensures Rounds(boxes, salt, Reverse(ks), Swap(Rounds(boxes, salt, ks, h))) == Swap(h)
    decreases ks
  {
    hide Round, Swap;
    if ks != [] {
      var h1 := Round(boxes, salt, ks[0], h);
      RoundsBack(boxes, salt, ks[1..], h1);
      RoundsSnoc(boxes, salt, Reverse(ks[1..]), ks[0], Swap(Rounds(boxes, salt, ks, h)));
      RoundTwice(boxes, salt, ks[0], h);
    }
  }

  /** One pass of the outer loop leaves the halves swapped. */
  function Pass(boxes: Boxes, salt: Word, ks: seq<RoundKey>, h: Halves): Halves {
    Swap(Rounds(boxes, salt, ks, h))
  }

  lemma {:induction false} PassBack(boxes: Boxes, salt: Word, ks: seq<RoundKey>, h: Halves)
    ensures Pass(boxes, salt, Reverse(ks), Pass(boxes, salt, ks, h)) == h
  {
    RoundsBack(boxes, salt, ks, h);
  }

  function Passes(boxes: Boxes, salt: Word, ks: seq<RoundKey>, n: nat, h: Halves): Halves {
    if n == 0 then h else Pass(boxes, salt, ks, Passes(boxes, salt, ks, n - 1, h))
  }

  lemma {:induction false} PassesInside(boxes: Boxes, salt: Word, ks: seq<RoundKey>, n: nat, h: Halves)
    ensures Passes(boxes, salt, ks, n, Pass(boxes, salt, ks, h)) == Passes(boxes, salt, ks, n + 1, h)
    decreases n
  {
    hide Pass;
    if n > 0 {
      PassesInside(boxes, salt, ks, n - 1, h);
    }
  }

  lemma {:induction false} PassesBack(boxes: Boxes, salt: Word, ks: seq<RoundKey>, n: nat, h: Halves)
    ensures Passes(boxes, salt, Reverse(ks), n, Passes(boxes, salt, ks, n, h)) == h
    decreases n
  {
    hide Pass;
    if n > 0 {
      var inner := Passes(boxes, salt, ks, n - 1, h);
      PassesInside(boxes, salt, Reverse(ks), n - 1, Pass(boxes, salt, ks, inner));
      PassBack(boxes, salt, ks, inner);
      PassesBack(boxes, salt, ks, n - 1, h);
    }
  }

  // ----- __do_des -----

  function Ip(h: Halves): Halves {
    Halves(IpL(h.l, h.r), IpR(h.l, h.r))
  }

  function Fp(h: Halves): Halves {
    Halves(FpL(h.l, h.r), FpR(h.l, h.r))
  }

  function DoDes(boxes: Boxes, salt: Word, ks: seq<RoundKey>, count: nat, h: Halves): Halves {
    Fp(Passes(boxes, salt, ks, count, Ip(h)))
  }

  /** With the round keys reversed, `__do_des` undoes itself: any block, keys, salt and count. */
  lemma {:induction false} DesBack(boxes: Boxes, salt: Word, ks: seq<RoundKey>, count: nat, h: Halves)
    ensures DoDes(boxes, salt, Reverse(ks), count, DoDes(boxes, salt, ks, count, h)) == h
    ensures DoDes(boxes, salt, ks, count, DoDes(boxes, salt, Reverse(ks), count, h)) == h
  {
    hide Passes, IpL, IpR, FpL, FpR;
    DesBackOnce(boxes, salt, ks, count, h);
    DesBackOnce(boxes, salt, Reverse(ks), count, h);
    assert Reverse(Reverse(ks)) == ks;
  }

  lemma {:induction false} DesBackOnce(boxes: Boxes, salt: Word, ks: seq<RoundKey>, count: nat, h: Halves)
    ensures DoDes(boxes, salt, Reverse(ks), count, DoDes(boxes, salt, ks, count, h)) == h
  {
    hide Passes, IpL, IpR, FpL, FpR;
    var middle := Passes(boxes, salt, ks, count, Ip(h));
    IpFp(middle.l, middle.r);
    PassesBack(boxes, salt, ks, count, Ip(h));
    FpIp(h.l, h.r);
  }

  lemma {:induction false} IpOfZero()
    ensures IpL(0, 0) == 0 && IpR(0, 0) == 0
  {
  }

  /** The table loop of the initial permutation, which the code leaves out for a zero block. */
  method IpLoop(h: Halves) returns (out: Halves)
    ensures out == Ip(h)
  {
    hide IpL, IpR, Select, IpMaskL, IpMaskR, Or, Nibble;
    var l: Word, r: Word := 0, 0;
    if h.l != 0 || h.r != 0 {
      for i := 0 to 8
        invariant l == IpLPart(h.l, h.r, i) && r == IpRPart(h.l, h.r, i)
      {
        l := Or(l, Select(IpMaskL(i), Nibble(h.l, i)), Select(IpMaskL(i + 8), Nibble(h.r, i)));
        r := Or(r, Select(IpMaskR(i), Nibble(h.l, i)), Select(IpMaskR(i + 8), Nibble(h.r, i)));
      }
      IpLWhole(h.l, h.r);
      IpRWhole(h.l, h.r);
    } else {
      IpOfZero();
    }
    out := Halves(l, r);
  }

  method FpLoop(h: Halves) returns (out: Halves)
    ensures out == Fp(h)
  {
    hide FpL, FpR, Select, FpMaskL, FpMaskR, Or, Nibble;
    var l, r := h.l, h.r;
    var lo: Word, ro: Word := 0, 0;
    for i := 0 to 4
      invariant lo == FpLPart(l, r, i) && ro == FpRPart(l, r, i)
    {
      assert 2 * (i + 1) - 2 == 2 * i && 2 * (i + 1) - 1 == 2 * i + 1 && (i + 1) + 3 == i + 4;
      ro := Or(ro, Select(FpMaskR(i), Nibble(l, 2 * i)), Select(FpMaskR(i + 4), Nibble(r, 2 * i)));
      lo := Or(lo, Select(FpMaskL(i), Nibble(l, 2 * i + 1)), Select(FpMaskL(i + 4), Nibble(r, 2 * i + 1)));
    }
    FpLWhole(l, r);
    FpRWhole(l, r);
    out := Halves(lo, ro);
  }

  method DoDesLoops(boxes: Boxes, salt: Word, ks: seq<RoundKey>, count: nat, h: Halves) returns (out: Halves)
    requires |ks| == 16
    ensures out == DoDes(boxes, salt, ks, count, h)
  {
    hide Ip, Fp, Pass;
    var start := IpLoop(h);
    var l, r := start.l, start.r;
    for n := 0 to count
      invariant Halves(l, r) == Passes(boxes, salt, ks, n, start)
    {
      l, r := RoundLoop(boxes, salt, ks, l, r);
    }
    out := FpLoop(Halves(l, r));
  }

  method RoundLoop(boxes: Boxes, salt: Word, ks: seq<RoundKey>, l0: Word, r0: Word) returns (l: Word, r: Word)
    requires |ks| == 16
    ensures Halves(l, r) == Pass(boxes, salt, ks, Halves(l0, r0))
  {
    hide F, Xor;
    l, r := l0, r0;
    var f: Word := 0;
    assert ks[0..] == ks;
    for i := 0 to 16
      invariant Rounds(boxes, salt, ks[i..], Halves(l, r)) == Rounds(boxes, salt, ks, Halves(l0, r0))
      invariant i > 0 ==> f == r
    {
      assert ks[i..][0] == ks[i] && ks[i..][1..] == ks[i + 1..];
      f := F(boxes, salt, r, ks[i]);
      f := Xor(f, l);
      l := r;
      r := f;
    }
    r := l;
    l := f;
  }
}
