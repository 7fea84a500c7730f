/**
 * The text around the hashes of crypt(3): C strings, the 64-character alphabet, and the
 * permuted base-64 forms of MD5, SHA-256 and SHA-512 digests.
 */
module CryptText {
  import opened Octets

  /** The byte of a C string at an index, with the NUL behind the last one. */
  function At(s: Bytes, i: nat): Byte {
    if i < |s| then s[i] else 0
  }

  const DOLLAR: Byte := 36
  const COLON: Byte := 58
  const NEWLINE: Byte := 10
  const MD5_PREFIX: Bytes := [36, 49, 36]  // "$1$"

  /** "./0123456789ABC...Zabc...z" */
  function Ascii64(v: nat): (c: Byte)
    requires v < 64
    ensures IsAscii64(c)
  {
    if v < 12 then 46 + v else if v < 38 then 53 + v else 59 + v
  }

  predicate IsAscii64(c: Byte) {
    46 <= c <= 57 || 65 <= c <= 90 || 97 <= c <= 122
  }

  function Ascii64Value(c: Byte): (v: nat)
    requires IsAscii64(c)
    ensures v < 64
  {
    if c <= 57 then c - 46 else if c <= 90 then c - 53 else c - 59
  }

  lemma {:induction false} Ascii64Inverse(v: nat, c: Byte)
    requires v < 64 && IsAscii64(c)
    ensures Ascii64Value(Ascii64(v)) == v && Ascii64(Ascii64Value(c)) == c
  {
  }

  ghost predicate AllAscii64(s: Bytes) {
    forall i | 0 <= i < |s| :: IsAscii64(s[i])
  }

  /** `to64`: `n` digits of `u` to the base 64, the lowest first. */
  function To64(u: nat, n: nat): (s: Bytes)
    ensures |s| == n && AllAscii64(s)
  {
    if n == 0 then [] else [Ascii64(u % 64)] + To64(u / 64, n - 1)
  }

  method To64Loop(u0: nat, n: nat) returns (s: Bytes)
    ensures s == To64(u0, n)
  {
    var u, k := u0, n;
    s := [];
    while k > 0
      invariant 0 <= k <= n && s + To64(u, k) == To64(u0, n)
    {
      assert (s + [Ascii64(u % 64)]) + To64(u / 64, k - 1) == s + ([Ascii64(u % 64)] + To64(u / 64, k - 1));
      s := s + [Ascii64(u % 64)];
      u := u / 64;
      k := k - 1;
    }
  }

  function Pow64(n: nat): (p: nat)
    ensures p > 0
  {
    if n == 0 then 1 else 64 * Pow64(n - 1)
  }

  lemma {:induction false} To64Injective(u: nat, v: nat, n: nat)
    requires u < Pow64(n) && v < Pow64(n) && To64(u, n) == To64(v, n)
    ensures u == v
    decreases n
  {
    if n > 0 {
      assert To64(u, n)[0] == To64(v, n)[0];
      Ascii64Inverse(u % 64, 46);
      Ascii64Inverse(v % 64, 46);
      assert To64(u, n)[1..] == To64(u / 64, n - 1) && To64(v, n)[1..] == To64(v / 64, n - 1);
      To64Injective(u / 64, v / 64, n - 1);
    }
  }

  function Pack(a: Byte, b: Byte, c: Byte): (u: nat)
    ensures u < 0x100_0000
  {
    a * 0x1_0000 + b * 0x100 + c
  }

  lemma {:induction false} GroupInjective(a: Byte, b: Byte, c: Byte, x: Byte, y: Byte, z: Byte)
    requires To64(Pack(a, b, c), 4) == To64(Pack(x, y, z), 4)
    ensures a == x && b == y && c == z
  {
    assert Pow64(4) == 64 * Pow64(3) && Pow64(3) == 64 * Pow64(2) && Pow64(2) == 64 * Pow64(1);
    To64Injective(Pack(a, b, c), Pack(x, y, z), 4);
  }

  // ----- a digest in groups of three bytes -----

  type Table = nat -> (nat, nat, nat)

  ghost predicate TableOk(g: Table, n: nat, size: nat) {
    forall i | 0 <= i < n :: g(i).0 < size && g(i).1 < size && g(i).2 < size
  }

  function Groups(md: Bytes, g: Table, i: nat, n: nat): (s: Bytes)
    requires i <= n && TableOk(g, n, |md|)
    ensures |s| == 4 * (n - i) && AllAscii64(s)
    decreases n - i
  {
    if i == n then [] else To64(Pack(md[g(i).0], md[g(i).1], md[g(i).2]), 4) + Groups(md, g, i + 1, n)
  }

  lemma {:induction false} GroupsStep(md: Bytes, g: Table, i: nat, n: nat)
    requires i < n && TableOk(g, n, |md|)
    ensures g(i).0 < |md| && g(i).1 < |md| && g(i).2 < |md|
    ensures Groups(md, g, i, n) == To64(Pack(md[g(i).0], md[g(i).1], md[g(i).2]), 4) + Groups(md, g, i + 1, n)
  {
    hide To64, Pack;
  }

  lemma {:induction false} GroupsInjective(a: Bytes, b: Bytes, g: Table, i: nat, n: nat, k: nat)
    requires |a| == |b| && i <= k < n && TableOk(g, n, |a|) && Groups(a, g, i, n) == Groups(b, g, i, n)
    ensures a[g(k).0] == b[g(k).0] && a[g(k).1] == b[g(k).1] && a[g(k).2] == b[g(k).2]
    decreases n - i
  {
    var x, y := To64(Pack(a[g(i).0], a[g(i).1], a[g(i).2]), 4), To64(Pack(b[g(i).0], b[g(i).1], b[g(i).2]), 4);
    assert x == Groups(a, g, i, n)[..4] && y == Groups(b, g, i, n)[..4];
    GroupInjective(a[g(i).0], a[g(i).1], a[g(i).2], b[g(i).0], b[g(i).1], b[g(i).2]);
    if k > i {
      assert Groups(a, g, i, n)[4..] == Groups(a, g, i + 1, n) && Groups(b, g, i, n)[4..] == Groups(b, g, i + 1, n);
      GroupsInjective(a, b, g, i + 1, n, k);
    }
  }

  lemma {:induction false} SplitAt(a: Bytes, b: Bytes, x: Bytes, y: Bytes)
    requires |a| == |b| && a + x == b + y
    ensures a == b && x == y
  {
    assert (a + x)[..|a|] == a && (b + y)[..|b|] == b;
    assert (a + x)[|a|..] == x && (b + y)[|b|..] == y;
  }

  // ----- MD5: 22 characters -----

  function Md5Group(i: nat): (nat, nat, nat) {
    match i
    case 0 => (0, 6, 12)
    case 1 => (1, 7, 13)
    case 2 => (2, 8, 14)
    case 3 => (3, 9, 15)
    case _ => (4, 10, 5)
  }

  /** Every byte but the last ones stands in a group. */
  lemma {:induction false} Md5Covers(j: nat)
    requires j < 16 && j != 11
    ensures var k := if j == 5 || j == 10 then 4 else if j < 5 then j else if j < 10 then j - 6 else j - 12;
            k < 5 && (j == Md5Group(k).0 || j == Md5Group(k).1 || j == Md5Group(k).2)
  {
  }

  lemma {:induction false} Md5TableOk()
    ensures TableOk(Md5Group, 5, 16)
  {
  }

  function EncodeMd5(md: Bytes): (s: Bytes)
    requires |md| == 16
    ensures |s| == 22 && AllAscii64(s)
  {
    Md5TableOk();
    Groups(md, Md5Group, 0, 5) + To64(md[11], 2)
  }

  lemma {:induction false} EncodeMd5Injective(a: Bytes, b: Bytes)
    requires |a| == 16 && |b| == 16 && EncodeMd5(a) == EncodeMd5(b)
    ensures a == b
  {
    hide Md5Group, Groups, To64, Pack, TableOk;
    Md5TableOk();
    SplitAt(Groups(a, Md5Group, 0, 5), Groups(b, Md5Group, 0, 5), To64(a[11], 2), To64(b[11], 2));
    assert Pow64(2) == 64 * Pow64(1);
    To64Injective(a[11], b[11], 2);
    forall j | 0 <= j < 16 ensures a[j] == b[j] {
      if j != 11 {
        Md5Covers(j);
        var k := if j == 5 || j == 10 then 4 else if j < 5 then j else if j < 10 then j - 6 else j - 12;
        GroupsInjective(a, b, Md5Group, 0, 5, k);
      }
    }
  }

  // ----- SHA-256: 43 characters -----

  function Sha256Group(i: nat): (nat, nat, nat) {
    match i
    case 0 => (0, 10, 20)
    case 1 => (21, 1, 11)
    case 2 => (12, 22, 2)
    case 3 => (3, 13, 23)
    case 4 => (24, 4, 14)
    case 5 => (15, 25, 5)
    case 6 => (6, 16, 26)
    case 7 => (27, 7, 17)
    case 8 => (18, 28, 8)
    case _ => (9, 19, 29)
  }

  /** Every byte but the last ones stands in a group. */
  lemma {:induction false} Sha256Covers(j: nat)
    requires j < 30
    ensures var k := j % 10;
            k < 10 && (j == Sha256Group(k).0 || j == Sha256Group(k).1 || j == Sha256Group(k).2)
  {
  }

  lemma {:induction false} Sha256TableOk()
    ensures TableOk(Sha256Group, 10, 32)
  {
  }

  function EncodeSha256(md: Bytes): (s: Bytes)
    requires |md| == 32
    ensures |s| == 43 && AllAscii64(s)
  {
    Sha256TableOk();
    Groups(md, Sha256Group, 0, 10) + To64(Pack(0, md[31], md[30]), 3)
  }

  lemma {:induction false} EncodeSha256Injective(a: Bytes, b: Bytes)
    requires |a| == 32 && |b| == 32 && EncodeSha256(a) == EncodeSha256(b)
    ensures a == b
  {
    hide Sha256Group, Groups, To64, TableOk;
    Sha256TableOk();
    var x, y := Pack(0, a[31], a[30]), Pack(0, b[31], b[30]);
    SplitAt(Groups(a, Sha256Group, 0, 10), Groups(b, Sha256Group, 0, 10), To64(x, 3), To64(y, 3));
    assert Pow64(3) == 64 * Pow64(2) && Pow64(2) == 64 * Pow64(1);
    To64Injective(x, y, 3);
    forall j | 0 <= j < 32 ensures a[j] == b[j] {
      if j < 30 {
        Sha256Covers(j);
        GroupsInjective(a, b, Sha256Group, 0, 10, j % 10);
      }
    }
  }

  // ----- SHA-512: 86 characters -----

  function Sha512Group(i: nat): (nat, nat, nat) {
    match i
    case 0 => (0, 21, 42)
    case 1 => (22, 43, 1)
    case 2 => (44, 2, 23)
    case 3 => (3, 24, 45)
    case 4 => (25, 46, 4)
    case 5 => (47, 5, 26)
    case 6 => (6, 27, 48)
    case 7 => (28, 49, 7)
    case 8 => (50, 8, 29)
    case 9 => (9, 30, 51)
    case 10 => (31, 52, 10)
    case 11 => (53, 11, 32)
    case 12 => (12, 33, 54)
    case 13 => (34, 55, 13)
    case 14 => (56, 14, 35)
    case 15 => (15, 36, 57)
    case 16 => (37, 58, 16)
    case 17 => (59, 17, 38)
    case 18 => (18, 39, 60)
    case 19 => (40, 61, 19)
    case _ => (62, 20, 41)
  }

  /** Every byte but the last ones stands in a group. */
  lemma {:induction false} Sha512Covers(j: nat)
    requires j < 63
    ensures var k := j % 21;
            k < 21 && (j == Sha512Group(k).0 || j == Sha512Group(k).1 || j == Sha512Group(k).2)
  {
  }

  lemma {:induction false} Sha512TableOk()
    ensures TableOk(Sha512Group, 21, 64)
  {
  }

  function EncodeSha512(md: Bytes): (s: Bytes)
    requires |md| == 64
    ensures |s| == 86 && AllAscii64(s)
  {
    Sha512TableOk();
    Groups(md, Sha512Group, 0, 21) + To64(md[63], 2)
  }

  lemma {:induction false} EncodeSha512Injective(a: Bytes, b: Bytes)
    requires |a| == 64 && |b| == 64 && EncodeSha512(a) == EncodeSha512(b)
    ensures a == b
  {
    hide Sha512Group, Groups, To64, Pack, TableOk;
    Sha512TableOk();
    SplitAt(Groups(a, Sha512Group, 0, 21), Groups(b, Sha512Group, 0, 21), To64(a[63], 2), To64(b[63], 2));
    assert Pow64(2) == 64 * Pow64(1);
    To64Injective(a[63], b[63], 2);
    forall j | 0 <= j < 64 ensures a[j] == b[j] {
      if j < 63 {
        Sha512Covers(j);
        GroupsInjective(a, b, Sha512Group, 0, 21, j % 21);
      }
    }
  }
}
