/**
 * The initial and final permutations of DES, as the source does them: by tables that are looked
 * up with four bits of the input at a time.
 */
module DesTables {
  import opened Common

  datatype Row = Row(e0: Word, e1: Word, e2: Word, e3: Word, e4: Word, e5: Word, e6: Word, e7: Word,
                     e8: Word, e9: Word, e10: Word, e11: Word, e12: Word, e13: Word, e14: Word, e15: Word)

  /** Entry `v` of a row, for a nibble `v`. */
  function Select(row: Row, v: Word): Word {
    if v & 8 == 0 then
      if v & 4 == 0 then
        if v & 2 == 0 then (if v & 1 == 0 then row.e0 else row.e1) else if v & 1 == 0 then row.e2 else row.e3
      else if v & 2 == 0 then (if v & 1 == 0 then row.e4 else row.e5)
      else if v & 1 == 0 then row.e6 else row.e7
    else if v & 4 == 0 then
      if v & 2 == 0 then (if v & 1 == 0 then row.e8 else row.e9) else if v & 1 == 0 then row.e10 else row.e11
    else if v & 2 == 0 then (if v & 1 == 0 then row.e12 else row.e13)
    else if v & 1 == 0 then row.e14 else row.e15
  }

  // ----- the tables -----

  /** `ip_maskl` */
  function IpMaskL(i: nat): Row {
    match i
    case 0 => Row(0, 0x10000, 0, 0x10000, 0x1000000, 0x1010000, 0x1000000, 0x1010000,
               0, 0x10000, 0, 0x10000, 0x1000000, 0x1010000, 0x1000000, 0x1010000)
    case 1 => Row(0, 0x1, 0, 0x1, 0x100, 0x101, 0x100, 0x101,
               0, 0x1, 0, 0x1, 0x100, 0x101, 0x100, 0x101)
    case 2 => Row(0, 0x20000, 0, 0x20000, 0x2000000, 0x2020000, 0x2000000, 0x2020000,
               0, 0x20000, 0, 0x20000, 0x2000000, 0x2020000, 0x2000000, 0x2020000)
    case 3 => Row(0, 0x2, 0, 0x2, 0x200, 0x202, 0x200, 0x202,
               0, 0x2, 0, 0x2, 0x200, 0x202, 0x200, 0x202)
    case 4 => Row(0, 0x40000, 0, 0x40000, 0x4000000, 0x4040000, 0x4000000, 0x4040000,
               0, 0x40000, 0, 0x40000, 0x4000000, 0x4040000, 0x4000000, 0x4040000)
    case 5 => Row(0, 0x4, 0, 0x4, 0x400, 0x404, 0x400, 0x404,
               0, 0x4, 0, 0x4, 0x400, 0x404, 0x400, 0x404)
    case 6 => Row(0, 0x80000, 0, 0x80000, 0x8000000, 0x8080000, 0x8000000, 0x8080000,
               0, 0x80000, 0, 0x80000, 0x8000000, 0x8080000, 0x8000000, 0x8080000)
    case 7 => Row(0, 0x8, 0, 0x8, 0x800, 0x808, 0x800, 0x808,
               0, 0x8, 0, 0x8, 0x800, 0x808, 0x800, 0x808)
    case 8 => Row(0, 0x100000, 0, 0x100000, 0x10000000, 0x10100000, 0x10000000, 0x10100000,
               0, 0x100000, 0, 0x100000, 0x10000000, 0x10100000, 0x10000000, 0x10100000)
    case 9 => Row(0, 0x10, 0, 0x10, 0x1000, 0x1010, 0x1000, 0x1010,
               0, 0x10, 0, 0x10, 0x1000, 0x1010, 0x1000, 0x1010)
    case 10 => Row(0, 0x200000, 0, 0x200000, 0x20000000, 0x20200000, 0x20000000, 0x20200000,
               0, 0x200000, 0, 0x200000, 0x20000000, 0x20200000, 0x20000000, 0x20200000)
    case 11 => Row(0, 0x20, 0, 0x20, 0x2000, 0x2020, 0x2000, 0x2020,
               0, 0x20, 0, 0x20, 0x2000, 0x2020, 0x2000, 0x2020)
    case 12 => Row(0, 0x400000, 0, 0x400000, 0x40000000, 0x40400000, 0x40000000, 0x40400000,
               0, 0x400000, 0, 0x400000, 0x40000000, 0x40400000, 0x40000000, 0x40400000)
    case 13 => Row(0, 0x40, 0, 0x40, 0x4000, 0x4040, 0x4000, 0x4040,
               0, 0x40, 0, 0x40, 0x4000, 0x4040, 0x4000, 0x4040)
    case 14 => Row(0, 0x800000, 0, 0x800000, 0x80000000, 0x80800000, 0x80000000, 0x80800000,
               0, 0x800000, 0, 0x800000, 0x80000000, 0x80800000, 0x80000000, 0x80800000)
    case _ => Row(0, 0x80, 0, 0x80, 0x8000, 0x8080, 0x8000, 0x8080,
               0, 0x80, 0, 0x80, 0x8000, 0x8080, 0x8000, 0x8080)
  }

  /** `ip_maskr` */
  function IpMaskR(i: nat): Row {
    match i
    case 0 => Row(0, 0, 0x10000, 0x10000, 0, 0, 0x10000, 0x10000,
               0x1000000, 0x1000000, 0x1010000, 0x1010000, 0x1000000, 0x1000000, 0x1010000, 0x1010000)
    case 1 => Row(0, 0, 0x1, 0x1, 0, 0, 0x1, 0x1,
               0x100, 0x100, 0x101, 0x101, 0x100, 0x100, 0x101, 0x101)
    case 2 => Row(0, 0, 0x20000, 0x20000, 0, 0, 0x20000, 0x20000,
               0x2000000, 0x2000000, 0x2020000, 0x2020000, 0x2000000, 0x2000000, 0x2020000, 0x2020000)
    case 3 => Row(0, 0, 0x2, 0x2, 0, 0, 0x2, 0x2,
               0x200, 0x200, 0x202, 0x202, 0x200, 0x200, 0x202, 0x202)
    case 4 => Row(0, 0, 0x40000, 0x40000, 0, 0, 0x40000, 0x40000,
               0x4000000, 0x4000000, 0x4040000, 0x4040000, 0x4000000, 0x4000000, 0x4040000, 0x4040000)
    case 5 => Row(0, 0, 0x4, 0x4, 0, 0, 0x4, 0x4,
               0x400, 0x400, 0x404, 0x404, 0x400, 0x400, 0x404, 0x404)
    case 6 => Row(0, 0, 0x80000, 0x80000, 0, 0, 0x80000, 0x80000,
               0x8000000, 0x8000000, 0x8080000, 0x8080000, 0x8000000, 0x8000000, 0x8080000, 0x8080000)
    case 7 => Row(0, 0, 0x8, 0x8, 0, 0, 0x8, 0x8,
               0x800, 0x800, 0x808, 0x808, 0x800, 0x800, 0x808, 0x808)
    case 8 => Row(0, 0, 0x100000, 0x100000, 0, 0, 0x100000, 0x100000,
               0x10000000, 0x10000000, 0x10100000, 0x10100000, 0x10000000, 0x10000000, 0x10100000, 0x10100000)
    case 9 => Row(0, 0, 0x10, 0x10, 0, 0, 0x10, 0x10,
               0x1000, 0x1000, 0x1010, 0x1010, 0x1000, 0x1000, 0x1010, 0x1010)
    case 10 => Row(0, 0, 0x200000, 0x200000, 0, 0, 0x200000, 0x200000,
               0x20000000, 0x20000000, 0x20200000, 0x20200000, 0x20000000, 0x20000000, 0x20200000, 0x20200000)
    case 11 => Row(0, 0, 0x20, 0x20, 0, 0, 0x20, 0x20,
               0x2000, 0x2000, 0x2020, 0x2020, 0x2000, 0x2000, 0x2020, 0x2020)
    case 12 => Row(0, 0, 0x400000, 0x400000, 0, 0, 0x400000, 0x400000,
               0x40000000, 0x40000000, 0x40400000, 0x40400000, 0x40000000, 0x40000000, 0x40400000, 0x40400000)
    case 13 => Row(0, 0, 0x40, 0x40, 0, 0, 0x40, 0x40,
               0x4000, 0x4000, 0x4040, 0x4040, 0x4000, 0x4000, 0x4040, 0x4040)
    case 14 => Row(0, 0, 0x800000, 0x800000, 0, 0, 0x800000, 0x800000,
               0x80000000, 0x80000000, 0x80800000, 0x80800000, 0x80000000, 0x80000000, 0x80800000, 0x80800000)
    case _ => Row(0, 0, 0x80, 0x80, 0, 0, 0x80, 0x80,
               0x8000, 0x8000, 0x8080, 0x8080, 0x8000, 0x8000, 0x8080, 0x8080)
  }

  /** `fp_maskl` */
  function FpMaskL(i: nat): Row {
    match i
    case 0 => Row(0, 0x40000000, 0x400000, 0x40400000, 0x4000, 0x40004000, 0x404000, 0x40404000,
               0x40, 0x40000040, 0x400040, 0x40400040, 0x4040, 0x40004040, 0x404040, 0x40404040)
    case 1 => Row(0, 0x10000000, 0x100000, 0x10100000, 0x1000, 0x10001000, 0x101000, 0x10101000,
               0x10, 0x10000010, 0x100010, 0x10100010, 0x1010, 0x10001010, 0x101010, 0x10101010)
    case 2 => Row(0, 0x4000000, 0x40000, 0x4040000, 0x400, 0x4000400, 0x40400, 0x4040400,
               0x4, 0x4000004, 0x40004, 0x4040004, 0x404, 0x4000404, 0x40404, 0x4040404)
    case 3 => Row(0, 0x1000000, 0x10000, 0x1010000, 0x100, 0x1000100, 0x10100, 0x1010100,
               0x1, 0x1000001, 0x10001, 0x1010001, 0x101, 0x1000101, 0x10101, 0x1010101)
    case 4 => Row(0, 0x80000000, 0x800000, 0x80800000, 0x8000, 0x80008000, 0x808000, 0x80808000,
               0x80, 0x80000080, 0x800080, 0x80800080, 0x8080, 0x80008080, 0x808080, 0x80808080)
    case 5 => Row(0, 0x20000000, 0x200000, 0x20200000, 0x2000, 0x20002000, 0x202000, 0x20202000,
               0x20, 0x20000020, 0x200020, 0x20200020, 0x2020, 0x20002020, 0x202020, 0x20202020)
    case 6 => Row(0, 0x8000000, 0x80000, 0x8080000, 0x800, 0x8000800, 0x80800, 0x8080800,
               0x8, 0x8000008, 0x80008, 0x8080008, 0x808, 0x8000808, 0x80808, 0x8080808)
    case _ => Row(0, 0x2000000, 0x20000, 0x2020000, 0x200, 0x2000200, 0x20200, 0x2020200,
               0x2, 0x2000002, 0x20002, 0x2020002, 0x202, 0x2000202, 0x20202, 0x2020202)
  }

  /** `fp_maskr` */
  function FpMaskR(i: nat): Row {
    match i
    case 0 => Row(0, 0x40000000, 0x400000, 0x40400000, 0x4000, 0x40004000, 0x404000, 0x40404000,
               0x40, 0x40000040, 0x400040, 0x40400040, 0x4040, 0x40004040, 0x404040, 0x40404040)
    case 1 => Row(0, 0x10000000, 0x100000, 0x10100000, 0x1000, 0x10001000, 0x101000, 0x10101000,
               0x10, 0x10000010, 0x100010, 0x10100010, 0x1010, 0x10001010, 0x101010, 0x10101010)
    case 2 => Row(0, 0x4000000, 0x40000, 0x4040000, 0x400, 0x4000400, 0x40400, 0x4040400,
               0x4, 0x4000004, 0x40004, 0x4040004, 0x404, 0x4000404, 0x40404, 0x4040404)
    case 3 => Row(0, 0x1000000, 0x10000, 0x1010000, 0x100, 0x1000100, 0x10100, 0x1010100,
               0x1, 0x1000001, 0x10001, 0x1010001, 0x101, 0x1000101, 0x10101, 0x1010101)
    case 4 => Row(0, 0x80000000, 0x800000, 0x80800000, 0x8000, 0x80008000, 0x808000, 0x80808000,
               0x80, 0x80000080, 0x800080, 0x80800080, 0x8080, 0x80008080, 0x808080, 0x80808080)
    case 5 => Row(0, 0x20000000, 0x200000, 0x20200000, 0x2000, 0x20002000, 0x202000, 0x20202000,
               0x20, 0x20000020, 0x200020, 0x20200020, 0x2020, 0x20002020, 0x202020, 0x20202020)
    case 6 => Row(0, 0x8000000, 0x80000, 0x8080000, 0x800, 0x8000800, 0x80800, 0x8080800,
               0x8, 0x8000008, 0x80008, 0x8080008, 0x808, 0x8000808, 0x80808, 0x8080808)
    case _ => Row(0, 0x2000000, 0x20000, 0x2020000, 0x200, 0x2000200, 0x20200, 0x2020200,
               0x2, 0x2000002, 0x20002, 0x2020002, 0x202, 0x2000202, 0x20202, 0x2020202)
  }

  // ----- what the rows are -----

  /** Four bits, counted from the top. */
  function Nibble(x: Word, i: nat): Word {
    match i
    case 0 => (x >> 28) & 0xf
    case 1 => (x >> 24) & 0xf
    case 2 => (x >> 20) & 0xf
    case 3 => (x >> 16) & 0xf
    case 4 => (x >> 12) & 0xf
    case 5 => (x >> 8) & 0xf
    case 6 => (x >> 4) & 0xf
    case _ => x & 0xf
  }

  function Or(a: Word, b: Word, c: Word): Word {
    a | b | c
  }

  /** Bits 0 and 2 of a nibble, eight places apart. */
  function Even(v: Word): Word {
    (v & 1) | ((v & 4) << 6)
  }

  /** Bits 1 and 3. */
  function Odd(v: Word): Word {
    ((v & 2) >> 1) | ((v & 8) << 5)
  }

  /** All four bits, eight places apart, the lowest on top. */
  function All(v: Word): Word {
    ((v & 1) << 24) | ((v & 2) << 15) | ((v & 4) << 6) | ((v & 8) >> 3)
  }

  lemma {:induction false} OrChain(a0: Word, a1: Word, a2: Word, a3: Word, a4: Word, a5: Word, a6: Word, a7: Word,
                                   a8: Word, a9: Word, a10: Word, a11: Word, a12: Word, a13: Word, a14: Word, a15: Word)
    ensures Or(Or(Or(Or(Or(Or(Or(Or(0, a0, a1), a2, a3), a4, a5), a6, a7), a8, a9), a10, a11), a12, a13), a14, a15)
            == a0 | a1 | a2 | a3 | a4 | a5 | a6 | a7 | a8 | a9 | a10 | a11 | a12 | a13 | a14 | a15
  {
  }

  // ----- ip_maskl -----

  function IpLTerm(i: nat, x: Word): Word {
    match i
    case 0 => (Even(x >> 28) << 16)
    case 1 => (Even(x >> 24) << 0)
    case 2 => (Even(x >> 20) << 17)
    case 3 => (Even(x >> 16) << 1)
    case 4 => (Even(x >> 12) << 18)
    case 5 => (Even(x >> 8) << 2)
    case 6 => (Even(x >> 4) << 19)
    case 7 => (Even(x) << 3)
    case 8 => (Even(x >> 28) << 20)
    case 9 => (Even(x >> 24) << 4)
    case 10 => (Even(x >> 20) << 21)
    case 11 => (Even(x >> 16) << 5)
    case 12 => (Even(x >> 12) << 22)
    case 13 => (Even(x >> 8) << 6)
    case 14 => (Even(x >> 4) << 23)
    case _ => (Even(x) << 7)
  }

  lemma {:induction false} IpLRowsA(x: Word)
    ensures Select(IpMaskL(0), Nibble(x, 0)) == IpLTerm(0, x)
    ensures Select(IpMaskL(1), Nibble(x, 1)) == IpLTerm(1, x)
    ensures Select(IpMaskL(2), Nibble(x, 2)) == IpLTerm(2, x)
    ensures Select(IpMaskL(3), Nibble(x, 3)) == IpLTerm(3, x)
  {
  }

  lemma {:induction false} IpLRowsB(x: Word)
    ensures Select(IpMaskL(4), Nibble(x, 4)) == IpLTerm(4, x)
    ensures Select(IpMaskL(5), Nibble(x, 5)) == IpLTerm(5, x)
    ensures Select(IpMaskL(6), Nibble(x, 6)) == IpLTerm(6, x)
    ensures Select(IpMaskL(7), Nibble(x, 7)) == IpLTerm(7, x)
  {
  }

  lemma {:induction false} IpLRowsC(x: Word)
    ensures Select(IpMaskL(8), Nibble(x, 0)) == IpLTerm(8, x)
    ensures Select(IpMaskL(9), Nibble(x, 1)) == IpLTerm(9, x)
    ensures Select(IpMaskL(10), Nibble(x, 2)) == IpLTerm(10, x)
  {
  }

  lemma {:induction false} IpLRowsD(x: Word)
    ensures Select(IpMaskL(11), Nibble(x, 3)) == IpLTerm(11, x)
    ensures Select(IpMaskL(12), Nibble(x, 4)) == IpLTerm(12, x)
    ensures Select(IpMaskL(13), Nibble(x, 5)) == IpLTerm(13, x)
  {
  }

  lemma {:induction false} IpLRowsE(x: Word)
    ensures Select(IpMaskL(14), Nibble(x, 6)) == IpLTerm(14, x)
    ensures Select(IpMaskL(15), Nibble(x, 7)) == IpLTerm(15, x)
  {
  }

  /** The left half of the initial permutation. */
  function IpL(l: Word, r: Word): Word {
    (Even(l >> 28) << 16) | (Even(r >> 28) << 20)
    | (Even(l >> 24) << 0) | (Even(r >> 24) << 4)
    | (Even(l >> 20) << 17) | (Even(r >> 20) << 21)
    | (Even(l >> 16) << 1) | (Even(r >> 16) << 5)
    | (Even(l >> 12) << 18) | (Even(r >> 12) << 22)
    | (Even(l >> 8) << 2) | (Even(r >> 8) << 6)
    | (Even(l >> 4) << 19) | (Even(r >> 4) << 23)
    | (Even(l) << 3) | (Even(r) << 7)
  }

  /** The loop over the table so far. */
  function IpLPart(l: Word, r: Word, i: nat): Word
  {
    if i == 0 then 0
    else Or(IpLPart(l, r, i - 1), Select(IpMaskL(i - 1), Nibble(l, i - 1)), Select(IpMaskL(i + 7), Nibble(r, i - 1)))
  }

  lemma {:induction false} IpLTerms(l: Word, r: Word)
    ensures IpL(l, r) ==
            Or(Or(Or(Or(Or(Or(Or(Or(0, IpLTerm(0, l), IpLTerm(8, r)), IpLTerm(1, l), IpLTerm(9, r)),
              IpLTerm(2, l), IpLTerm(10, r)), IpLTerm(3, l), IpLTerm(11, r)), IpLTerm(4, l), IpLTerm(12, r)),
              IpLTerm(5, l), IpLTerm(13, r)), IpLTerm(6, l), IpLTerm(14, r)), IpLTerm(7, l), IpLTerm(15, r))
  {
    hide Or, Even, Odd, All;
    OrChain(IpLTerm(0, l), IpLTerm(8, r), IpLTerm(1, l), IpLTerm(9, r), IpLTerm(2, l), IpLTerm(10, r),
            IpLTerm(3, l), IpLTerm(11, r), IpLTerm(4, l), IpLTerm(12, r), IpLTerm(5, l), IpLTerm(13, r),
            IpLTerm(6, l), IpLTerm(14, r), IpLTerm(7, l), IpLTerm(15, r));
  }

  lemma {:induction false} IpLWhole(l: Word, r: Word)
    ensures IpLPart(l, r, 8) == IpL(l, r)
  {
    hide IpLTerm, IpMaskL, Select, Nibble, IpL, Or;
    IpLRowsA(l);
    IpLRowsB(l);
    IpLRowsC(r);
    IpLRowsD(r);
    IpLRowsE(r);
    IpLTerms(l, r);
    assert IpLPart(l, r, 1) == Or(IpLPart(l, r, 0), IpLTerm(0, l), IpLTerm(8, r));
    assert IpLPart(l, r, 2) == Or(IpLPart(l, r, 1), IpLTerm(1, l), IpLTerm(9, r));
    assert IpLPart(l, r, 3) == Or(IpLPart(l, r, 2), IpLTerm(2, l), IpLTerm(10, r));
    assert IpLPart(l, r, 4) == Or(IpLPart(l, r, 3), IpLTerm(3, l), IpLTerm(11, r));
    assert IpLPart(l, r, 5) == Or(IpLPart(l, r, 4), IpLTerm(4, l), IpLTerm(12, r));
    assert IpLPart(l, r, 6) == Or(IpLPart(l, r, 5), IpLTerm(5, l), IpLTerm(13, r));
    assert IpLPart(l, r, 7) == Or(IpLPart(l, r, 6), IpLTerm(6, l), IpLTerm(14, r));
  }

  // ----- ip_maskr -----

  function IpRTerm(i: nat, x: Word): Word {
    match i
    case 0 => (Odd(x >> 28) << 16)
    case 1 => (Odd(x >> 24) << 0)
    case 2 => (Odd(x >> 20) << 17)
    case 3 => (Odd(x >> 16) << 1)
    case 4 => (Odd(x >> 12) << 18)
    case 5 => (Odd(x >> 8) << 2)
    case 6 => (Odd(x >> 4) << 19)
    case 7 => (Odd(x) << 3)
    case 8 => (Odd(x >> 28) << 20)
    case 9 => (Odd(x >> 24) << 4)
    case 10 => (Odd(x >> 20) << 21)
    case 11 => (Odd(x >> 16) << 5)
    case 12 => (Odd(x >> 12) << 22)
    case 13 => (Odd(x >> 8) << 6)
    case 14 => (Odd(x >> 4) << 23)
    case _ => (Odd(x) << 7)
  }

  lemma {:induction false} IpRRowsA(x: Word)
    ensures Select(IpMaskR(0), Nibble(x, 0)) == IpRTerm(0, x)
    ensures Select(IpMaskR(1), Nibble(x, 1)) == IpRTerm(1, x)
    ensures Select(IpMaskR(2), Nibble(x, 2)) == IpRTerm(2, x)
    ensures Select(IpMaskR(3), Nibble(x, 3)) == IpRTerm(3, x)
  {
  }

  lemma {:induction false} IpRRowsB(x: Word)
    ensures Select(IpMaskR(4), Nibble(x, 4)) == IpRTerm(4, x)
    ensures Select(IpMaskR(5), Nibble(x, 5)) == IpRTerm(5, x)
    ensures Select(IpMaskR(6), Nibble(x, 6)) == IpRTerm(6, x)
    ensures Select(IpMaskR(7), Nibble(x, 7)) == IpRTerm(7, x)
  {
  }

  lemma {:induction false} IpRRowsC(x: Word)
    ensures Select(IpMaskR(8), Nibble(x, 0)) == IpRTerm(8, x)
    ensures Select(IpMaskR(9), Nibble(x, 1)) == IpRTerm(9, x)
    ensures Select(IpMaskR(10), Nibble(x, 2)) == IpRTerm(10, x)
  {
  }

  lemma {:induction false} IpRRowsD(x: Word)
    ensures Select(IpMaskR(11), Nibble(x, 3)) == IpRTerm(11, x)
    ensures Select(IpMaskR(12), Nibble(x, 4)) == IpRTerm(12, x)
    ensures Select(IpMaskR(13), Nibble(x, 5)) == IpRTerm(13, x)
  {
  }

  lemma {:induction false} IpRRowsE(x: Word)
    ensures Select(IpMaskR(14), Nibble(x, 6)) == IpRTerm(14, x)
    ensures Select(IpMaskR(15), Nibble(x, 7)) == IpRTerm(15, x)
  {
  }

  /** The right half. */
  function IpR(l: Word, r: Word): Word {
    (Odd(l >> 28) << 16) | (Odd(r >> 28) << 20)
    | (Odd(l >> 24) << 0) | (Odd(r >> 24) << 4)
    | (Odd(l >> 20) << 17) | (Odd(r >> 20) << 21)
    | (Odd(l >> 16) << 1) | (Odd(r >> 16) << 5)
    | (Odd(l >> 12) << 18) | (Odd(r >> 12) << 22)
    | (Odd(l >> 8) << 2) | (Odd(r >> 8) << 6)
    | (Odd(l >> 4) << 19) | (Odd(r >> 4) << 23)
    | (Odd(l) << 3) | (Odd(r) << 7)
  }

  /** The loop over the table so far. */
  function IpRPart(l: Word, r: Word, i: nat): Word
  {
    if i == 0 then 0
    else Or(IpRPart(l, r, i - 1), Select(IpMaskR(i - 1), Nibble(l, i - 1)), Select(IpMaskR(i + 7), Nibble(r, i - 1)))
  }

  lemma {:induction false} IpRTerms(l: Word, r: Word)
    ensures IpR(l, r) ==
            Or(Or(Or(Or(Or(Or(Or(Or(0, IpRTerm(0, l), IpRTerm(8, r)), IpRTerm(1, l), IpRTerm(9, r)),
              IpRTerm(2, l), IpRTerm(10, r)), IpRTerm(3, l), IpRTerm(11, r)), IpRTerm(4, l), IpRTerm(12, r)),
              IpRTerm(5, l), IpRTerm(13, r)), IpRTerm(6, l), IpRTerm(14, r)), IpRTerm(7, l), IpRTerm(15, r))
  {
    hide Or, Even, Odd, All;
    OrChain(IpRTerm(0, l), IpRTerm(8, r), IpRTerm(1, l), IpRTerm(9, r), IpRTerm(2, l), IpRTerm(10, r),
            IpRTerm(3, l), IpRTerm(11, r), IpRTerm(4, l), IpRTerm(12, r), IpRTerm(5, l), IpRTerm(13, r),
            IpRTerm(6, l), IpRTerm(14, r), IpRTerm(7, l), IpRTerm(15, r));
  }

  lemma {:induction false} IpRWhole(l: Word, r: Word)
    ensures IpRPart(l, r, 8) == IpR(l, r)
  {
    hide IpRTerm, IpMaskR, Select, Nibble, IpR, Or;
    IpRRowsA(l);
    IpRRowsB(l);
    IpRRowsC(r);
    IpRRowsD(r);
    IpRRowsE(r);
    IpRTerms(l, r);
    assert IpRPart(l, r, 1) == Or(IpRPart(l, r, 0), IpRTerm(0, l), IpRTerm(8, r));
    assert IpRPart(l, r, 2) == Or(IpRPart(l, r, 1), IpRTerm(1, l), IpRTerm(9, r));
    assert IpRPart(l, r, 3) == Or(IpRPart(l, r, 2), IpRTerm(2, l), IpRTerm(10, r));
    assert IpRPart(l, r, 4) == Or(IpRPart(l, r, 3), IpRTerm(3, l), IpRTerm(11, r));
    assert IpRPart(l, r, 5) == Or(IpRPart(l, r, 4), IpRTerm(4, l), IpRTerm(12, r));
    assert IpRPart(l, r, 6) == Or(IpRPart(l, r, 5), IpRTerm(5, l), IpRTerm(13, r));
    assert IpRPart(l, r, 7) == Or(IpRPart(l, r, 6), IpRTerm(6, l), IpRTerm(14, r));
  }

  // ----- fp_maskl -----

  function FpLTerm(i: nat, x: Word): Word {
    match i
    case 0 => (All(x >> 24) << 6)
    case 1 => (All(x >> 16) << 4)
    case 2 => (All(x >> 8) << 2)
    case 3 => (All(x) << 0)
    case 4 => (All(x >> 24) << 7)
    case 5 => (All(x >> 16) << 5)
    case 6 => (All(x >> 8) << 3)
    case _ => (All(x) << 1)
  }

  lemma {:induction false} FpLRowsA(x: Word)
    ensures Select(FpMaskL(0), Nibble(x, 1)) == FpLTerm(0, x)
    ensures Select(FpMaskL(1), Nibble(x, 3)) == FpLTerm(1, x)
    ensures Select(FpMaskL(2), Nibble(x, 5)) == FpLTerm(2, x)
    ensures Select(FpMaskL(3), Nibble(x, 7)) == FpLTerm(3, x)
  {
  }

  lemma {:induction false} FpLRowsB(x: Word)
    ensures Select(FpMaskL(4), Nibble(x, 1)) == FpLTerm(4, x)
    ensures Select(FpMaskL(5), Nibble(x, 3)) == FpLTerm(5, x)
    ensures Select(FpMaskL(6), Nibble(x, 5)) == FpLTerm(6, x)
    ensures Select(FpMaskL(7), Nibble(x, 7)) == FpLTerm(7, x)
  {
  }

  /** The left half of the final permutation. */
  function FpL(l: Word, r: Word): Word {
    (All(l >> 24) << 6) | (All(r >> 24) << 7)
    | (All(l >> 16) << 4) | (All(r >> 16) << 5)
    | (All(l >> 8) << 2) | (All(r >> 8) << 3)
    | (All(l) << 0) | (All(r) << 1)
  }

  /** The loop over the table so far. */
  function FpLPart(l: Word, r: Word, i: nat): Word
  {
    if i == 0 then 0
    else Or(FpLPart(l, r, i - 1), Select(FpMaskL(i - 1), Nibble(l, 2 * i - 1)), Select(FpMaskL(i + 3), Nibble(r, 2 * i - 1)))
  }

  lemma {:induction false} FpLTerms(l: Word, r: Word)
    ensures FpL(l, r) ==
            Or(Or(Or(Or(0, FpLTerm(0, l), FpLTerm(4, r)), FpLTerm(1, l), FpLTerm(5, r)), FpLTerm(2, l),
              FpLTerm(6, r)), FpLTerm(3, l), FpLTerm(7, r))
  {
    hide Even, Odd, All;
  }

  lemma {:induction false} FpLWhole(l: Word, r: Word)
    ensures FpLPart(l, r, 4) == FpL(l, r)
  {
    hide FpLTerm, FpMaskL, Select, Nibble, FpL, Or;
    FpLRowsA(l);
    FpLRowsB(r);
    FpLTerms(l, r);
    assert FpLPart(l, r, 1) == Or(FpLPart(l, r, 0), FpLTerm(0, l), FpLTerm(4, r));
    assert FpLPart(l, r, 2) == Or(FpLPart(l, r, 1), FpLTerm(1, l), FpLTerm(5, r));
    assert FpLPart(l, r, 3) == Or(FpLPart(l, r, 2), FpLTerm(2, l), FpLTerm(6, r));
  }

  // ----- fp_maskr -----

  function FpRTerm(i: nat, x: Word): Word {
    match i
    case 0 => (All(x >> 28) << 6)
    case 1 => (All(x >> 20) << 4)
    case 2 => (All(x >> 12) << 2)
    case 3 => (All(x >> 4) << 0)
    case 4 => (All(x >> 28) << 7)
    case 5 => (All(x >> 20) << 5)
    case 6 => (All(x >> 12) << 3)
    case _ => (All(x >> 4) << 1)
  }

  lemma {:induction false} FpRRowsA(x: Word)
    ensures Select(FpMaskR(0), Nibble(x, 0)) == FpRTerm(0, x)
    ensures Select(FpMaskR(1), Nibble(x, 2)) == FpRTerm(1, x)
    ensures Select(FpMaskR(2), Nibble(x, 4)) == FpRTerm(2, x)
    ensures Select(FpMaskR(3), Nibble(x, 6)) == FpRTerm(3, x)
  {
  }

  lemma {:induction false} FpRRowsB(x: Word)
    ensures Select(FpMaskR(4), Nibble(x, 0)) == FpRTerm(4, x)
    ensures Select(FpMaskR(5), Nibble(x, 2)) == FpRTerm(5, x)
    ensures Select(FpMaskR(6), Nibble(x, 4)) == FpRTerm(6, x)
    ensures Select(FpMaskR(7), Nibble(x, 6)) == FpRTerm(7, x)
  {
  }

  /** The right half. */
  function FpR(l: Word, r: Word): Word {
    (All(l >> 28) << 6) | (All(r >> 28) << 7)
    | (All(l >> 20) << 4) | (All(r >> 20) << 5)
    | (All(l >> 12) << 2) | (All(r >> 12) << 3)
    | (All(l >> 4) << 0) | (All(r >> 4) << 1)
  }

  /** The loop over the table so far. */
  function FpRPart(l: Word, r: Word, i: nat): Word
  {
    if i == 0 then 0
    else Or(FpRPart(l, r, i - 1), Select(FpMaskR(i - 1), Nibble(l, 2 * i - 2)), Select(FpMaskR(i + 3), Nibble(r, 2 * i - 2)))
  }

  lemma {:induction false} FpRTerms(l: Word, r: Word)
    ensures FpR(l, r) ==
            Or(Or(Or(Or(0, FpRTerm(0, l), FpRTerm(4, r)), FpRTerm(1, l), FpRTerm(5, r)), FpRTerm(2, l),
              FpRTerm(6, r)), FpRTerm(3, l), FpRTerm(7, r))
  {
    hide Even, Odd, All;
  }

  lemma {:induction false} FpRWhole(l: Word, r: Word)
    ensures FpRPart(l, r, 4) == FpR(l, r)
  {
    hide FpRTerm, FpMaskR, Select, Nibble, FpR, Or;
    FpRRowsA(l);
    FpRRowsB(r);
    FpRTerms(l, r);
    assert FpRPart(l, r, 1) == Or(FpRPart(l, r, 0), FpRTerm(0, l), FpRTerm(4, r));
    assert FpRPart(l, r, 2) == Or(FpRPart(l, r, 1), FpRTerm(1, l), FpRTerm(5, r));
    assert FpRPart(l, r, 3) == Or(FpRPart(l, r, 2), FpRTerm(2, l), FpRTerm(6, r));
  }

  // ----- they are inverse -----

  lemma {:induction false} FpIp(l: Word, r: Word)
    ensures FpL(IpL(l, r), IpR(l, r)) == l && FpR(IpL(l, r), IpR(l, r)) == r
  {
  }

  lemma {:induction false} IpFp(l: Word, r: Word)
    ensures IpL(FpL(l, r), FpR(l, r)) == l && IpR(FpL(l, r), FpR(l, r)) == r
  {
  }
}
