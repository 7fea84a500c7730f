/**
 * The settings of `crypt_r`: five hash schemes, each with a parser for the setting and a
 * printer for the result.  What the schemes hash is a parameter, `core`.
 */
module CryptR {
  import opened Common
  import opened Octets
  import opened CryptText
  import opened BlowfishText

  datatype Scheme = Md5Scheme | Sha256Scheme | Sha512Scheme | BlowfishScheme | DesScheme

  datatype Params =
    | Md5(salt: Bytes)
    | Sha(wide: bool, salt: Bytes, rounds: nat)
    | Bcrypt(subtype: Byte, cost: nat, salt: Bytes)
    | DesExtended(count: nat, saltNumber: nat)
    | DesOld(saltNumber: nat)

  /** What a setting asks for: `prefix` is the part of the result in front of the hash. */
  datatype Plan = Plan(prefix: Bytes, params: Params)

  datatype Outcome = Hash(text: Bytes) | Token(text: Bytes)

  type Core = (Bytes, Params) -> Bytes

  const ROUNDS: Bytes := [114, 111, 117, 110, 100, 115, 61]  // "rounds="

  function ShaPrefix(wide: bool): Bytes {
    [36, if wide then 54 else 53, 36]              // "$6$" or "$5$"
  }

  function DigestSize(p: Params): nat {
    match p
    case Md5(_) => 16
    case Sha(wide, _, _) => if wide then 64 else 32
    case Bcrypt(_, _, _) => 23
    case DesExtended(_, _) => 8
    case DesOld(_) => 8
  }

  ghost predicate CoreOk(core: Core) {
    forall key, p :: |core(key, p)| == DigestSize(p)
  }

  // ----- salts -----

  /** The characters up to a '$', the end, or `max`. */
  function SaltLength(s: Bytes, max: nat): (n: nat)
    ensures n <= max && n <= |s|
    ensures forall i | 0 <= i < n :: s[i] != DOLLAR
    ensures n == max || n == |s| || s[n] == DOLLAR
    decreases max
  {
    if max == 0 || s == [] || s[0] == DOLLAR then 0 else 1 + SaltLength(s[1..], max - 1)
  }

  lemma {:induction false} SaltLengthUnique(s: Bytes, max: nat, n: nat)
    requires n <= max && n < |s| && s[n] == DOLLAR && forall i | 0 <= i < n :: s[i] != DOLLAR
    ensures SaltLength(s, max) == n
  {
  }

  ghost predicate SafeSalt(salt: Bytes) {
    forall i | 0 <= i < |salt| :: salt[i] != NEWLINE && salt[i] != COLON
  }

  method ScanSalt(s: Bytes, max: nat, reject: bool) returns (ok: bool, n: nat)
    ensures ok <==> (reject ==> SafeSalt(s[..SaltLength(s, max)]))
    ensures ok ==> n == SaltLength(s, max)
  {
    n := 0;
    while n < max && n < |s| && s[n] != DOLLAR
      invariant n <= max && n <= |s| && n <= SaltLength(s, max)
      invariant reject ==> SafeSalt(s[..n])
    {
      if reject && (s[n] == NEWLINE || s[n] == COLON) {
        assert s[..SaltLength(s, max)][n] == s[n];
        return false, n;
      }
      n := n + 1;
    }
    ok := true;
  }

  // ----- numbers -----

  predicate IsDigit(c: Byte) {
    48 <= c <= 57
  }

  function DigitRun(s: Bytes): (n: nat)
    ensures n <= |s| && (forall i | 0 <= i < n :: IsDigit(s[i])) && (n < |s| ==> !IsDigit(s[n]))
  {
    if s == [] || !IsDigit(s[0]) then 0 else 1 + DigitRun(s[1..])
  }

  function Number(s: Bytes): nat
    requires forall i | 0 <= i < |s| :: IsDigit(s[i])
  {
    if s == [] then 0 else
      assert IsDigit(s[|s| - 1]);
      var digit: int := s[|s| - 1];
      10 * Number(s[..|s| - 1]) + (digit - 48)
  }

  /** "%u" */
  function Decimal(n: nat): (s: Bytes)
    ensures s != [] && forall i | 0 <= i < |s| :: IsDigit(s[i])
  {
    (if n < 10 then [] else Decimal(n / 10)) + [48 + n % 10]
  }

  lemma {:induction false} NumberDecimal(n: nat)
    ensures Number(Decimal(n)) == n
  {
    var s := Decimal(n);
    if n < 10 {
      assert s == [48 + n % 10] && s[..0] == [];
    } else {
      NumberDecimal(n / 10);
      assert s[..|s| - 1] == Decimal(n / 10);
    }
  }

  lemma {:induction false} DecimalLength(n: nat)
    requires n < 10_000_000
    ensures |Decimal(n)| <= 7
  {
    assert n / 10 / 10 / 10 / 10 / 10 / 10 < 10;
    var a := n / 10;
    var b := a / 10;
    var c := b / 10;
    var d := c / 10;
    var e := d / 10;
    var f := e / 10;
    assert |Decimal(f)| == 1;
    assert |Decimal(e)| <= 2;
    assert |Decimal(d)| <= 3;
    assert |Decimal(c)| <= 4;
    assert |Decimal(b)| <= 5;
    assert |Decimal(a)| <= 6;
  }

  lemma {:induction false} DigitRunUnique(s: Bytes, n: nat)
    requires n < |s| && !IsDigit(s[n]) && forall i | 0 <= i < n :: IsDigit(s[i])
    ensures DigitRun(s) == n
  {
  }

  // ----- MD5 -----

  function ParseMd5(setting: Bytes): Option<Plan> {
    if !(MD5_PREFIX <= setting) then None
    else
      var n := SaltLength(setting[3..], 8);
      Some(Plan(setting[..3 + n] + [DOLLAR], Md5(setting[3..][..n])))
  }

  // ----- the SHA schemes -----

  datatype RoundsField = RoundsField(rounds: nat, text: Bytes, rest: Bytes)

  const ROUNDS_DEFAULT := 5000
  const ROUNDS_MIN := 1000
  const ROUNDS_MAX := 9999999

  function RoundsText(r: nat): Bytes {
    ROUNDS + Decimal(r) + [DOLLAR]
  }

  function ParseRounds(s: Bytes): Option<RoundsField> {
    if !(ROUNDS <= s) then Some(RoundsField(ROUNDS_DEFAULT, [], s))
    else
      var t := s[7..];
      var n := DigitRun(t);
      if n == 0 || At(t, n) != DOLLAR then None
      else
        var u := Number(t[..n]);
        if u > ROUNDS_MAX then None
        else
          var r := if u < ROUNDS_MIN then ROUNDS_MIN else u;
          Some(RoundsField(r, RoundsText(r), t[n + 1..]))
  }

  ghost function ParseSha(wide: bool, setting: Bytes): Option<Plan> {
    if !(ShaPrefix(wide) <= setting) then None
    else
      match ParseRounds(setting[3..])
      case None => None
      case Some(field) =>
        var salt := field.rest[..SaltLength(field.rest, 16)];
        if !SafeSalt(salt) then None
        else Some(Plan(ShaPrefix(wide) + field.text + salt + [DOLLAR], Sha(wide, salt, field.rounds)))
  }

  // ----- bcrypt -----

  /** `flags_by_subtype` knows 'a', 'b', 'x' and 'y'. */
  function Flags(subtype: Byte): nat {
    if subtype == 97 then 2 else if subtype == 98 || subtype == 121 then 4 else if subtype == 120 then 1 else 0
  }

  function ParseBcrypt(setting: Bytes, min: nat): Option<Plan> {
    if At(setting, 0) != 36 || At(setting, 1) != 50 || Flags(At(setting, 2)) == 0 || At(setting, 3) != 36 ||
       !(48 <= At(setting, 4) <= 49) || !IsDigit(At(setting, 5)) || At(setting, 6) != 36 then None
    else
      var cost := Cost(setting[4], setting[5]);
      if Pow2(cost) < min then None
      else
        match Decode(setting[7..], 16)
        case None => None
        case Some(salt) =>
          TextNeeded(setting[7..]);
          Some(Plan(setting[..28] + [Itoa64(Value(setting, 28) / 16 * 16)], Bcrypt(setting[2], cost, salt)))
  }

  function Cost(tens: Byte, ones: Byte): nat
    requires IsDigit(tens) && IsDigit(ones)
  {
    var t: int, o: int := tens, ones;
    (t - 48) * 10 + (o - 48)
  }

  lemma {:induction false} TextNeeded(s: Bytes)
    requires Decode(s, 16).Some?
    ensures |s| >= 22 && Value(s, 21) < 64
    ensures forall t: Bytes {:trigger t[7..]} | |t| >= 7 && t[7..] == s :: Value(t, 28) < 64
  {
    hide Decode, Value;
    DecodesIff(s, 16);
    SaltText();
    SpelledValues(s, 22);
    forall t: Bytes | |t| >= 7 && t[7..] == s ensures Value(t, 28) < 64 {
      assert t[28] == t[7..][21];
      ValueSame(s, 21, t, 28);
    }
  }

  lemma {:induction false} SaltText()
    ensures TextLength(16) == 22
  {
    assert TextLength(16) == 4 + TextLength(13) && TextLength(13) == 4 + TextLength(10) && TextLength(10) == 4 + TextLength(7);
  }

  lemma {:induction false} ValueSame(s: Bytes, i: nat, t: Bytes, j: nat)
    requires i < |s| && j < |t| && s[i] == t[j]
    ensures Value(s, i) == Value(t, j)
  {
  }

  // ----- DES -----

  /** `ascii_to_bin`: bytes from 128 up count as negative characters. */
  function AsciiToBin(ch: Byte): (v: nat)
    ensures v < 64
  {
    var c: int := ch;
    var sch := if c < 128 then c else c - 256;
    (if sch >= 97 then sch - 59 else if sch >= 65 then sch - 53 else sch - 46) % 64
  }

  /** The check in the source, that printing the value gives the character back, tells the alphabet. */
  lemma {:induction false} CanonicalIff(ch: Byte)
    ensures Ascii64(AsciiToBin(ch)) == ch <==> IsAscii64(ch)
    ensures IsAscii64(ch) ==> AsciiToBin(ch) == Ascii64Value(ch)
  {
  }

  function SixBits(s: Bytes): nat {
    if s == [] then 0 else AsciiToBin(s[0]) + 64 * SixBits(s[1..])
  }

  predicate Unsafe(c: Byte) {
    c == 0 || c == NEWLINE || c == COLON
  }

  ghost function ParseDes(setting: Bytes): Option<Plan> {
    if At(setting, 0) == 95 then
      if |setting| < 9 || !AllAscii64(setting[1..9]) || SixBits(setting[1..5]) == 0 then None
      else Some(Plan(setting[..9], DesExtended(SixBits(setting[1..5]), SixBits(setting[5..9]))))
    else if Unsafe(At(setting, 0)) || Unsafe(At(setting, 1)) then None
    else Some(Plan(setting[..2], DesOld(AsciiToBin(setting[1]) * 64 + AsciiToBin(setting[0]))))
  }

  lemma {:induction false} SixBitsSnoc(s: Bytes, c: Byte)
    ensures SixBits(s + [c]) == SixBits(s) + AsciiToBin(c) * Pow64(|s|)
  {
    hide AsciiToBin;
    if s == [] {
      assert s + [c] == [c] && [c][1..] == [];
    } else {
      assert (s + [c])[1..] == s[1..] + [c];
      SixBitsSnoc(s[1..], c);
      Shift(AsciiToBin(c), Pow64(|s| - 1));
    }
  }

  lemma {:induction false} Shift(v: nat, p: nat)
    ensures 64 * (v * p) == v * (64 * p)
  {
  }

  /** The loops over four characters of the extended setting. */
  method ReadSix(t: Bytes) returns (ok: bool, number: nat)
    ensures ok <==> |t| >= 4 && AllAscii64(t[..4])
    ensures ok ==> number == SixBits(t[..4])
  {
    number := 0;
    var weight: nat := 1;
    var i := 0;
    while i < 4
      invariant 0 <= i <= 4 && i <= |t| && AllAscii64(t[..i])
      invariant number == SixBits(t[..i]) && weight == Pow64(i)
    {
      var ch := At(t, i);
      var value := AsciiToBin(ch);
      CanonicalIff(ch);
      if Ascii64(value) != ch {
        assert i < |t| ==> t[..i + 1][i] == ch;
        assert |t| >= 4 ==> t[..4][i] == ch;
        return false, number;
      }
      assert t[..i + 1] == t[..i] + [ch];
      SixBitsSnoc(t[..i], ch);
      number := number + value * weight;
      weight := weight * 64;
      i := i + 1;
    }
    ok := true;
  }

  /** `n` digits of `u` to the base 64, the highest first. */
  function High64(u: nat, n: nat): (s: Bytes)
    ensures |s| == n && AllAscii64(s)
  {
    if n == 0 then [] else High64(u / 64, n - 1) + [Ascii64(u % 64)]
  }

  lemma {:induction false} High64Injective(u: nat, v: nat, n: nat)
    requires u < Pow64(n) && v < Pow64(n) && High64(u, n) == High64(v, n)
    ensures u == v
    decreases n
  {
    if n > 0 {
      assert High64(u, n)[n - 1] == High64(v, n)[n - 1];
      Ascii64Inverse(u % 64, 46);
      Ascii64Inverse(v % 64, 46);
      assert High64(u, n)[..n - 1] == High64(u / 64, n - 1) && High64(v, n)[..n - 1] == High64(v / 64, n - 1);
      High64Injective(u / 64, v / 64, n - 1);
    }
  }

  /** The two output words, taken as eight bytes, in eleven characters. */
  function EncodeDes(md: Bytes): (s: Bytes)
    requires |md| == 8
    ensures |s| == 11 && AllAscii64(s)
  {
    High64(Pack(md[0], md[1], md[2]), 4) + High64(Pack(md[3], md[4], md[5]), 4) + High64(4 * Pack(0, md[6], md[7]), 3)
  }

  lemma {:induction false} PackFacts(a: Byte, b: Byte, c: Byte, x: Byte, y: Byte, z: Byte)
    ensures Pack(a, b, c) == Pack(x, y, z) ==> a == x && b == y && c == z
    ensures a == 0 ==> Pack(a, b, c) < 0x1_0000
    ensures x == 0 ==> Pack(x, y, z) < 0x1_0000
  {
  }

  lemma {:induction false} EncodeDesInjective(a: Bytes, b: Bytes)
    requires |a| == 8 && |b| == 8 && EncodeDes(a) == EncodeDes(b)
    ensures a == b
  {
    hide High64, Pack;
    assert Pow64(4) == 64 * Pow64(3) && Pow64(3) == 64 * Pow64(2) && Pow64(2) == 64 * Pow64(1);
    var a1, a2, a3 := Pack(a[0], a[1], a[2]), Pack(a[3], a[4], a[5]), 4 * Pack(0, a[6], a[7]);
    var b1, b2, b3 := Pack(b[0], b[1], b[2]), Pack(b[3], b[4], b[5]), 4 * Pack(0, b[6], b[7]);
    SplitAt(High64(a1, 4) + High64(a2, 4), High64(b1, 4) + High64(b2, 4), High64(a3, 3), High64(b3, 3));
    SplitAt(High64(a1, 4), High64(b1, 4), High64(a2, 4), High64(b2, 4));
    PackFacts(a[0], a[1], a[2], b[0], b[1], b[2]);
    PackFacts(a[3], a[4], a[5], b[3], b[4], b[5]);
    PackFacts(0, a[6], a[7], 0, b[6], b[7]);
    High64Injective(a1, b1, 4);
    High64Injective(a2, b2, 4);
    High64Injective(a3, b3, 3);
  }

  // ----- crypt_r -----

  function SchemeOf(setting: Bytes): Scheme {
    if At(setting, 0) == DOLLAR && At(setting, 1) != 0 && At(setting, 2) != 0 then
      if setting[1] == 49 && setting[2] == DOLLAR then Md5Scheme
      else if setting[1] == 50 && At(setting, 3) == DOLLAR then BlowfishScheme
      else if setting[1] == 53 && setting[2] == DOLLAR then Sha256Scheme
      else if setting[1] == 54 && setting[2] == DOLLAR then Sha512Scheme
      else DesScheme
    else DesScheme
  }

  ghost function Parse(setting: Bytes): Option<Plan> {
    match SchemeOf(setting)
    case Md5Scheme => ParseMd5(setting)
    case BlowfishScheme => ParseBcrypt(setting, 16)
    case Sha256Scheme => ParseSha(false, setting)
    case Sha512Scheme => ParseSha(true, setting)
    case DesScheme => ParseDes(setting)
  }

  predicate KeyFits(p: Params, key: Bytes) {
    match p
    case Md5(_) => |key| <= 30000
    case Sha(_, _, _) => |key| <= 256
    case Bcrypt(_, _, _) => true
    case DesExtended(_, _) => true
    case DesOld(_) => true
  }

  function Print(p: Params, md: Bytes): (s: Bytes)
    requires |md| == DigestSize(p)
  {
    match p
    case Md5(_) => EncodeMd5(md)
    case Sha(wide, _, _) => if wide then EncodeSha512(md) else EncodeSha256(md)
    case Bcrypt(_, _, _) => Encode(md)
    case DesExtended(_, _) => EncodeDes(md)
    case DesOld(_) => EncodeDes(md)
  }

  ghost function Crypt(core: Core, key: Bytes, setting: Bytes): Outcome
    requires CoreOk(core)
  {
    match Parse(setting)
    case Some(plan) =>
      if KeyFits(plan.params, key) then Hash(plan.prefix + Print(plan.params, core(key, plan.params)))
      else Token([42])
    case None => Token(if SchemeOf(setting) == DesScheme && At(setting, 0) == 42 then [120] else [42])
  }

  // ----- a result is a setting for itself -----

  /** What a printed hash starts with: two characters, none of them NUL or '$'. */
  ghost predicate HashText(tail: Bytes) {
    |tail| >= 2 && tail[0] != 0 && tail[0] != DOLLAR && tail[1] != 0 && tail[1] != DOLLAR
  }

  lemma {:induction false} SaltRead(salt: Bytes, tail: Bytes, max: nat)
    requires |salt| <= max && forall i | 0 <= i < |salt| :: salt[i] != DOLLAR
    ensures var s := salt + [DOLLAR] + tail;
            SaltLength(s, max) == |salt| && s[..|salt|] == salt
  {
    var s := salt + [DOLLAR] + tail;
    assert s[..|salt|] == salt && s[|salt|] == DOLLAR;
    SaltLengthUnique(s, max, |salt|);
  }

  lemma {:induction false} Md5Again(setting: Bytes, tail: Bytes)
    requires ParseMd5(setting).Some?
    ensures var plan := ParseMd5(setting).value;
            ParseMd5(plan.prefix + tail) == Some(plan) && SchemeOf(plan.prefix + tail) == Md5Scheme
            && |plan.prefix| <= 12
  {
    hide SaltLength;
    var plan := ParseMd5(setting).value;
    var salt := plan.params.salt;
    var h := plan.prefix + tail;
    SaltRead(salt, tail, 8);
    assert setting[..3] == MD5_PREFIX && setting[..3 + |salt|] == setting[..3] + salt;
    assert h == MD5_PREFIX + (salt + [DOLLAR] + tail);
    assert h[3..] == salt + [DOLLAR] + tail;
    assert h[..3 + |salt|] == MD5_PREFIX + salt;
    assert h[0] == MD5_PREFIX[0] && h[1] == MD5_PREFIX[1] && h[2] == MD5_PREFIX[2];
  }

  /** Without a rounds field, the salt does not look like one. */
  lemma {:induction false} NoRounds(s: Bytes, tail: Bytes)
    requires !(ROUNDS <= s)
    ensures var salt := s[..SaltLength(s, 16)]; !(ROUNDS <= salt + [DOLLAR] + tail)
  {
    var salt := s[..SaltLength(s, 16)];
    var t := salt + [DOLLAR] + tail;
    assert t[|salt|] == DOLLAR;
    assert forall i | 0 <= i < |salt| :: t[i] == s[i];
  }

  lemma {:induction false} RoundsAgain(r: nat, rest: Bytes)
    requires ROUNDS_MIN <= r <= ROUNDS_MAX
    ensures ParseRounds(RoundsText(r) + rest) == Some(RoundsField(r, RoundsText(r), rest))
  {
    hide Number, Decimal, DigitRun;
    var s := RoundsText(r) + rest;
    var d := Decimal(r);
    assert s == ROUNDS + (d + ([DOLLAR] + rest));
    assert s[7..] == d + ([DOLLAR] + rest);
    var t := s[7..];
    assert t[|d|] == DOLLAR;
    DigitRunUnique(t, |d|);
    assert t[..|d|] == d && t[|d| + 1..] == rest;
    NumberDecimal(r);
  }

  lemma {:induction false} FieldAgain(s: Bytes, tail: Bytes)
    requires ParseRounds(s).Some?
    ensures var field := ParseRounds(s).value;
            var salt := field.rest[..SaltLength(field.rest, 16)];
            ParseRounds(field.text + salt + [DOLLAR] + tail) == Some(field.(rest := salt + [DOLLAR] + tail)) && |field.text| <= 15
  {
    hide Decimal, Number, DigitRun, SaltLength;
    var field := ParseRounds(s).value;
    var salt := field.rest[..SaltLength(field.rest, 16)];
    assert field.text + salt + [DOLLAR] + tail == field.text + (salt + [DOLLAR] + tail);
    if ROUNDS <= s {
      RoundsAgain(field.rounds, salt + [DOLLAR] + tail);
      DecimalLength(field.rounds);
    } else {
      NoRounds(s, tail);
      assert [] + (salt + [DOLLAR] + tail) == salt + [DOLLAR] + tail;
    }
  }

  lemma {:induction false} ShaAgain(wide: bool, setting: Bytes, tail: Bytes)
    requires ParseSha(wide, setting).Some?
    ensures var plan := ParseSha(wide, setting).value;
            ParseSha(wide, plan.prefix + tail) == Some(plan)
            && SchemeOf(plan.prefix + tail) == (if wide then Sha512Scheme else Sha256Scheme)
            && |plan.prefix| <= 35
  {
    hide ParseRounds, SaltLength, SafeSalt;
    var plan := ParseSha(wide, setting).value;
    var field := ParseRounds(setting[3..]).value;
    var salt := plan.params.salt;
    var h := plan.prefix + tail;
    FieldAgain(setting[3..], tail);
    var body := field.text + salt + [DOLLAR] + tail;
    assert h == ShaPrefix(wide) + body;
    assert h[3..] == body;
    assert h[0] == ShaPrefix(wide)[0] && h[1] == ShaPrefix(wide)[1] && h[2] == ShaPrefix(wide)[2];
    SaltRead(salt, tail, 16);
  }

  lemma {:induction false} BcryptAgain(setting: Bytes, tail: Bytes)
    requires ParseBcrypt(setting, 16).Some?
    ensures var plan := ParseBcrypt(setting, 16).value;
            ParseBcrypt(plan.prefix + tail, 16) == Some(plan) && SchemeOf(plan.prefix + tail) == BlowfishScheme
            && |plan.prefix| == 29
  {
    hide Decode, Value, Itoa64, Pow2, Cost;
    var plan := ParseBcrypt(setting, 16).value;
    var h := plan.prefix + tail;
    TextNeeded(setting[7..]);
    forall i | 0 <= i < 28 ensures h[i] == setting[i] {
      assert plan.prefix[i] == setting[..28][i];
    }
    LastCharacter(setting, h);
    assert h[..28] == setting[..28];
    DecodeLastHigh(h[7..], setting[7..], 16);
  }

  lemma {:induction false} LastCharacter(setting: Bytes, h: Bytes)
    requires |setting| >= 29 && |h| >= 29 && h[..28] == setting[..28] && Value(setting, 28) < 64
    requires h[28] == Itoa64(Value(setting, 28) / 16 * 16)
    ensures Value(h, 28) == Value(setting, 28) / 16 * 16
    ensures Itoa64(Value(h, 28) / 16 * 16) == h[28]
    ensures TextLength(16) == 22 && HighAlike(h[7..], setting[7..], 22)
  {
    AtoiItoa(Value(setting, 28) / 16 * 16);
    assert h[7..][21] == h[28] && setting[7..][21] == setting[28];
    assert h[7..][..21] == h[..28][7..] && setting[7..][..21] == setting[..28][7..];
    assert TextLength(16) == 4 + TextLength(13) && TextLength(13) == 4 + TextLength(10) && TextLength(10) == 4 + TextLength(7);
  }

  lemma {:induction false} DesAgain(setting: Bytes, tail: Bytes)
    requires SchemeOf(setting) == DesScheme && ParseDes(setting).Some? && HashText(tail)
    ensures var plan := ParseDes(setting).value;
            ParseDes(plan.prefix + tail) == Some(plan) && SchemeOf(plan.prefix + tail) == DesScheme
            && |plan.prefix| <= 9
  {
    hide AsciiToBin, SixBits, AllAscii64;
    var plan := ParseDes(setting).value;
    var h := plan.prefix + tail;
    var k := |plan.prefix|;
    assert h[..k] == plan.prefix == setting[..k];
    assert h[0] == setting[0] && h[1] == setting[1];
    if setting[0] == 95 {
      assert h[1..9] == h[..9][1..9] && setting[1..9] == setting[..9][1..9];
      assert h[1..5] == h[..9][1..5] && setting[1..5] == setting[..9][1..5];
      assert h[5..9] == h[..9][5..9] && setting[5..9] == setting[..9][5..9];
    } else {
      assert h[2] == tail[0] && h[3] == tail[1];
    }
  }

  lemma {:induction false} PrintIsText(p: Params, md: Bytes)
    requires |md| == DigestSize(p)
    ensures HashText(Print(p, md)) && |Print(p, md)| <= 86
  {
    hide EncodeMd5, EncodeSha256, EncodeSha512, EncodeDes;
    if p.Bcrypt? {
      BcryptText(md);
    }
  }

  lemma {:induction false} BcryptText(md: Bytes)
    requires |md| == 23
    ensures |Encode(md)| == 31 && HashText(Encode(md))
  {
    assert Encode(md) == Group(md[0], md[1], md[2]) + Encode(md[3..]);
    assert TextLength(23) == 4 + TextLength(20) && TextLength(20) == 4 + TextLength(17) && TextLength(17) == 4 + TextLength(14)
           && TextLength(14) == 4 + TextLength(11) && TextLength(11) == 4 + TextLength(8) && TextLength(8) == 4 + TextLength(5)
           && TextLength(5) == 4 + TextLength(2);
  }

  /** Parsing a result gives the plan that made it. */
  lemma {:induction false} ParseAgain(setting: Bytes, tail: Bytes)
    requires Parse(setting).Some? && HashText(tail)
    ensures var plan := Parse(setting).value;
            Parse(plan.prefix + tail) == Some(plan) && SchemeOf(plan.prefix + tail) == SchemeOf(setting) && |plan.prefix| <= 35
  {
    hide ParseMd5, ParseSha, ParseBcrypt, ParseDes, SchemeOf, HashText;
    match SchemeOf(setting)
    case Md5Scheme => Md5Again(setting, tail);
    case BlowfishScheme => BcryptAgain(setting, tail);
    case Sha256Scheme => ShaAgain(false, setting, tail);
    case Sha512Scheme => ShaAgain(true, setting, tail);
    case DesScheme => DesAgain(setting, tail);
  }

  /** A hash is a setting that makes the same hash, by the same scheme, and fits `crypt`'s buffer. */
  lemma {:induction false} Fixpoint(core: Core, key: Bytes, setting: Bytes)
    requires CoreOk(core) && Crypt(core, key, setting).Hash?
    ensures var h := Crypt(core, key, setting).text;
            Crypt(core, key, h) == Hash(h) && SchemeOf(h) == SchemeOf(setting) && |h| + 1 <= 128
  {
    hide Parse, SchemeOf, Print, HashText;
    var plan := Parse(setting).value;
    var tail := Print(plan.params, core(key, plan.params));
    PrintIsText(plan.params, core(key, plan.params));
    ParseAgain(setting, tail);
  }

  /** The failure token cannot be taken for the setting: already the first character differs. */
  lemma {:induction false} TokenDiffers(core: Core, key: Bytes, setting: Bytes)
    requires CoreOk(core) && Crypt(core, key, setting).Token?
    ensures var t := Crypt(core, key, setting).text;
            |t| == 1 && t[0] != 0 && t[0] != At(setting, 0)
  {
    hide ParseSha, ParseBcrypt, ParseDes, ParseMd5;
    if Parse(setting).Some? {
      LimitedKeys(setting);
    }
  }

  lemma {:induction false} LimitedKeys(setting: Bytes)
    requires Parse(setting).Some?
    ensures var p := Parse(setting).value.params;
            p.Md5? || p.Sha? ==> At(setting, 0) == DOLLAR
  {
    hide SaltLength, Decode;
    match SchemeOf(setting)
    case Md5Scheme =>
    case BlowfishScheme =>
    case Sha256Scheme =>
    case Sha512Scheme =>
    case DesScheme =>
  }

  lemma {:induction false} PrintInjective(p: Params, a: Bytes, b: Bytes)
    requires |a| == DigestSize(p) && |b| == DigestSize(p) && Print(p, a) == Print(p, b)
    ensures a == b
  {
    hide EncodeMd5, EncodeSha256, EncodeSha512, EncodeDes, Encode;
    match p
    case Md5(_) => EncodeMd5Injective(a, b);
    case Sha(wide, _, _) =>
      if wide {
        EncodeSha512Injective(a, b);
      } else {
        EncodeSha256Injective(a, b);
      }
    case Bcrypt(_, _, _) =>
      DecodeEncode(a, []);
      DecodeEncode(b, []);
    case DesExtended(_, _) => EncodeDesInjective(a, b);
    case DesOld(_) => EncodeDesInjective(a, b);
  }

  /** Checking a password against a hash accepts exactly the keys with the same digest. */
  lemma {:induction false} ChecksDigest(core: Core, key: Bytes, setting: Bytes, other: Bytes)
    requires CoreOk(core) && Crypt(core, key, setting).Hash?
    ensures var h := Crypt(core, key, setting).text;
            var p := Parse(setting).value.params;
            Crypt(core, other, h) == Hash(h) <==> KeyFits(p, other) && core(other, p) == core(key, p)
  {
    hide Parse, SchemeOf, Print, HashText;
    var plan := Parse(setting).value;
    var p := plan.params;
    var tail := Print(p, core(key, p));
    PrintIsText(p, core(key, p));
    ParseAgain(setting, tail);
    if KeyFits(p, other) {
      var again := Print(p, core(other, p));
      if plan.prefix + again == plan.prefix + tail {
        SplitAt(plan.prefix, plan.prefix, again, tail);
        PrintInjective(p, core(other, p), core(key, p));
      }
    }
  }

  // ----- which settings are accepted -----

  ghost predicate RoundsForm(s: Bytes, digits: Bytes, rest: Bytes) {
    digits != [] && (forall i | 0 <= i < |digits| :: IsDigit(digits[i])) && s == ROUNDS + digits + [DOLLAR] + rest
  }

  /** A SHA setting behind its "$5$" or "$6$": an optional rounds field, which must be well formed
      and not too large, and a salt of which the first 16 characters before a '$' are looked at. */
  ghost predicate ShaForm(s: Bytes) {
    if ROUNDS <= s then exists digits, rest :: RoundsForm(s, digits, rest) && Number(digits) <= ROUNDS_MAX && SaltForm(rest)
    else SaltForm(s)
  }

  ghost predicate SaltForm(s: Bytes) {
    exists n: nat :: n <= |s| && n <= 16 && SafeSalt(s[..n]) && DOLLAR !in s[..n] && (n == 16 || n == |s| || s[n] == DOLLAR)
  }

  ghost predicate BcryptForm(s: Bytes) {
    && |s| >= 29
    && s[..2] == [36, 50]
    && s[2] in [97, 98, 120, 121]
    && s[3] == DOLLAR
    && 48 <= s[4] <= 49
    && IsDigit(s[5])
    && Cost(s[4], s[5]) >= 4
    && s[6] == DOLLAR
    && forall i | 7 <= i < 29 :: Atoi64(s[i]) < 64
  }

  ghost predicate DesForm(s: Bytes) {
    if At(s, 0) == 95 then
      |s| >= 9 && (forall i | 1 <= i < 9 :: IsAscii64(s[i])) && exists i | 1 <= i < 5 :: s[i] != 46
    else |s| >= 2 && !Unsafe(s[0]) && !Unsafe(s[1])
  }

  ghost predicate Accepted(setting: Bytes) {
    match SchemeOf(setting)
    case Md5Scheme => true
    case BlowfishScheme => BcryptForm(setting)
    case Sha256Scheme => ShaForm(setting[3..])
    case Sha512Scheme => ShaForm(setting[3..])
    case DesScheme => DesForm(setting)
  }

  lemma {:induction false} SaltFormIff(s: Bytes)
    ensures SaltForm(s) <==> SafeSalt(s[..SaltLength(s, 16)])
  {
    var k := SaltLength(s, 16);
    if SaltForm(s) {
      var n: nat :| n <= |s| && n <= 16 && SafeSalt(s[..n]) && DOLLAR !in s[..n] && (n == 16 || n == |s| || s[n] == DOLLAR);
      assert forall i | 0 <= i < n :: s[i] in s[..n];
      assert n == k;
    }
  }

  lemma {:induction false} ShaFormIff(s: Bytes)
    ensures ShaForm(s) <==> ParseRounds(s).Some? && SafeSalt(ParseRounds(s).value.rest[..SaltLength(ParseRounds(s).value.rest, 16)])
  {
    hide SafeSalt, SaltForm, SaltLength;
    if ROUNDS <= s {
      if ShaForm(s) {
        var digits, rest :| RoundsForm(s, digits, rest) && Number(digits) <= ROUNDS_MAX && SaltForm(rest);
        RoundsFormRead(s, digits, rest);
        SaltFormIff(rest);
      }
      if ParseRounds(s).Some? {
        RoundsFormMade(s);
        SaltFormIff(ParseRounds(s).value.rest);
      }
    } else {
      SaltFormIff(s);
    }
  }

  lemma {:induction false} RoundsFormRead(s: Bytes, digits: Bytes, rest: Bytes)
    requires RoundsForm(s, digits, rest) && Number(digits) <= ROUNDS_MAX
    ensures ParseRounds(s).Some? && ParseRounds(s).value.rest == rest
  {
    hide Number, Decimal, DigitRun;
    assert s == ROUNDS + (digits + ([DOLLAR] + rest));
    assert s[7..] == digits + ([DOLLAR] + rest);
    var t := s[7..];
    assert t[|digits|] == DOLLAR;
    DigitRunUnique(t, |digits|);
    assert t[..|digits|] == digits && t[|digits| + 1..] == rest;
  }

  lemma {:induction false} RoundsFormMade(s: Bytes)
    requires ROUNDS <= s && ParseRounds(s).Some?
    ensures var t := s[7..]; var n := DigitRun(t);
            n < |t| && RoundsForm(s, t[..n], t[n + 1..]) && Number(t[..n]) <= ROUNDS_MAX
            && ParseRounds(s).value.rest == t[n + 1..]
  {
    var t := s[7..];
    var n := DigitRun(t);
    assert s == ROUNDS + t;
    assert t == t[..n] + [DOLLAR] + t[n + 1..];
    assert ROUNDS + (t[..n] + [DOLLAR] + t[n + 1..]) == ROUNDS + t[..n] + [DOLLAR] + t[n + 1..];
  }

  lemma {:induction false} SixBitsZero(s: Bytes)
    requires AllAscii64(s)
    ensures SixBits(s) == 0 <==> forall i | 0 <= i < |s| :: s[i] == 46
  {
    if s != [] {
      SixBitsZero(s[1..]);
      CanonicalIff(s[0]);
      assert forall i | 1 <= i < |s| :: s[i] == s[1..][i - 1];
    }
  }

  lemma {:induction false} DesFormIff(s: Bytes)
    ensures DesForm(s) <==> ParseDes(s).Some?
  {
    if At(s, 0) == 95 && |s| >= 9 {
      assert forall i | 1 <= i < 9 :: s[i] == s[1..9][i - 1];
      assert forall i | 1 <= i < 5 :: s[i] == s[1..5][i - 1];
      if AllAscii64(s[1..9]) {
        assert forall i | 0 <= i < 4 :: s[1..5][i] == s[1..9][i];
        SixBitsZero(s[1..5]);
        assert forall i | 0 <= i < 4 :: s[1..5][i] == s[i + 1];
      }
    }
  }

  lemma {:induction false} CostIff(cost: nat)
    requires cost <= 19
    ensures Pow2(cost) >= 16 <==> cost >= 4
  {
    assert Pow2(4) == 2 * Pow2(3) && Pow2(3) == 2 * Pow2(2) && Pow2(2) == 2 * Pow2(1);
    if cost >= 4 {
      Pow2Grows(4, cost);
    } else {
      Pow2Grows(cost, 3);
    }
  }

  lemma {:induction false} Pow2Grows(a: nat, b: nat)
    requires a <= b
    ensures Pow2(a) <= Pow2(b)
    decreases b
  {
    if a < b {
      Pow2Grows(a, b - 1);
    }
  }

  lemma {:induction false} BcryptFormIff(s: Bytes)
    ensures BcryptForm(s) <==> ParseBcrypt(s, 16).Some?
  {
    hide Decode, Atoi64, Pow2, Value;
    if |s| >= 7 && 48 <= s[4] <= 49 && IsDigit(s[5]) {
      CostIff(Cost(s[4], s[5]));
      DecodesIff(s[7..], 16);
      assert TextLength(16) == 4 + TextLength(13) && TextLength(13) == 4 + TextLength(10) && TextLength(10) == 4 + TextLength(7);
      assert forall i | 0 <= i < 22 && i + 7 < |s| :: s[7..][i] == s[i + 7];
      assert forall i | 7 <= i < 29 && i < |s| :: s[i] == s[7..][i - 7];
    }
  }

  /** `crypt_r` makes a hash exactly for well-formed settings and keys within the scheme's limit. */
  lemma {:induction false} HashesIff(core: Core, key: Bytes, setting: Bytes)
    requires CoreOk(core)
    ensures Accepted(setting) <==> Parse(setting).Some?
    ensures Crypt(core, key, setting).Hash? <==> Accepted(setting) && KeyFits(Parse(setting).value.params, key)
  {
    hide ShaForm, BcryptForm, DesForm, ParseRounds, ParseBcrypt, ParseDes, SafeSalt, SaltLength;
    match SchemeOf(setting)
    case Md5Scheme =>
      assert MD5_PREFIX <= setting;
    case BlowfishScheme => BcryptFormIff(setting);
    case Sha256Scheme =>
      assert ShaPrefix(false) <= setting;
      ShaFormIff(setting[3..]);
    case Sha512Scheme =>
      assert ShaPrefix(true) <= setting;
      ShaFormIff(setting[3..]);
    case DesScheme => DesFormIff(setting);
  }
}
