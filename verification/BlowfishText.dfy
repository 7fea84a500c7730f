/** The base-64 text of bcrypt: three bytes in four characters, the high bits first. */
module BlowfishText {
  import opened Common
  import opened Octets
  import opened CryptText

  /** "./ABC...Zabc...z0123456789" */
  function Itoa64(v: nat): Byte
    requires v < 64
  {
    if v < 2 then 46 + v else if v < 28 then 63 + v else if v < 54 then 69 + v else v - 6
  }

  /** The value of a character, 64 when it is not of the alphabet. */
  function Atoi64(c: Byte): nat {
    if 46 <= c <= 47 then c - 46
    else if 48 <= c <= 57 then c + 6
    else if 65 <= c <= 90 then c - 63
    else if 97 <= c <= 122 then c - 69
    else 64
  }

  lemma {:induction false} AtoiItoa(v: nat)
    requires v < 64
    ensures Atoi64(Itoa64(v)) == v
  {
  }

  lemma {:induction false} ItoaAtoi(c: Byte)
    ensures Atoi64(c) <= 64 && (Atoi64(c) < 64 ==> Itoa64(Atoi64(c)) == c)
  {
  }

  /** The value of the character at an index; there is none behind the end. */
  function Value(s: Bytes, i: nat): (v: nat)
    ensures v <= 64
  {
    Atoi64(At(s, i))
  }

  lemma {:induction false} ValueFacts(s: Bytes, i: nat)
    ensures Value(s, i) < 64 <==> i < |s| && Atoi64(s[i]) < 64
    ensures Value(s, i) < 64 ==> s[i] == Itoa64(Value(s, i))
  {
    ItoaAtoi(At(s, i));
  }

  // ----- the bytes of a group -----

  /** How often `d` goes into `c`: a shift to the right when `d` is a power of two. */
  function Times(c: nat, d: nat): nat
    requires d > 0
  {
    if c < d then 0 else 1 + Times(c - d, d)
  }

  lemma {:induction false} TimesIs(c: nat, d: nat)
    requires d == 4 || d == 16
    ensures Times(c, d) == c / d && c - d * Times(c, d) == c % d
    decreases c
  {
    if c >= d {
      TimesIs(c - d, d);
    }
  }

  function Byte1(c1: nat, c2: nat): Byte
    requires c1 < 64 && c2 < 64
  {
    TimesIs(c2, 16);
    c1 * 4 + Times(c2, 16)
  }

  function Byte2(c2: nat, c3: nat): Byte
    requires c2 < 64 && c3 < 64
  {
    TimesIs(c2, 16);
    TimesIs(c3, 4);
    (c2 - 16 * Times(c2, 16)) * 16 + Times(c3, 4)
  }

  function Byte3(c3: nat, c4: nat): Byte
    requires c3 < 64 && c4 < 64
  {
    TimesIs(c3, 4);
    (c3 - 4 * Times(c3, 4)) * 64 + c4
  }

  /** `BF_decode` of `n` bytes. */
  function Decode(s: Bytes, n: nat): (r: Option<Bytes>)
    requires n >= 1
    ensures r.Some? ==> |r.value| == n
  {
    var c1, c2, c3, c4 := Value(s, 0), Value(s, 1), Value(s, 2), Value(s, 3);
    if c1 == 64 || c2 == 64 then None
    else if n == 1 then Some([Byte1(c1, c2)])
    else if c3 == 64 then None
    else if n == 2 then Some([Byte1(c1, c2), Byte2(c2, c3)])
    else if c4 == 64 then None
    else
      var group := [Byte1(c1, c2), Byte2(c2, c3), Byte3(c3, c4)];
      if n == 3 then Some(group)
      else
        Prepend(group, Decode(s[4..], n - 3))
  }

  function Prepend(before: Bytes, r: Option<Bytes>): Option<Bytes> {
    match r
    case None => None
    case Some(rest) => Some(before + rest)
  }

  /** How many characters `n` bytes take. */
  function TextLength(n: nat): nat {
    if n == 0 then 0 else if n == 1 then 2 else if n == 2 then 3 else 4 + TextLength(n - 3)
  }

  /** The four characters of three bytes; a group of one or two bytes goes on with zeros. */
  function Group(a: Byte, b: Byte, c: Byte): (s: Bytes)
    ensures |s| == 4
  {
    [Itoa64(a / 4), Itoa64((a % 4) * 16 + b / 16), Itoa64((b % 16) * 4 + c / 64), Itoa64(c % 64)]
  }

  /** `BF_encode`. */
  function Encode(b: Bytes): (s: Bytes)
    requires b != []
    ensures |s| == TextLength(|b|)
  {
    if |b| == 1 then Group(b[0], 0, 0)[..2]
    else if |b| == 2 then Group(b[0], b[1], 0)[..3]
    else if |b| == 3 then Group(b[0], b[1], b[2])
    else Group(b[0], b[1], b[2]) + Encode(b[3..])
  }

  // ----- they are inverse -----

  lemma {:induction false} GroupDecodes(a: Byte, b: Byte, c: Byte)
    ensures var (c1, c2, c3, c4) := (a / 4, (a % 4) * 16 + b / 16, (b % 16) * 4 + c / 64, c % 64);
            Byte1(c1, c2) == a && Byte2(c2, c3) == b && Byte3(c3, c4) == c
  {
    hide Times;
    TimesIs((a % 4) * 16 + b / 16, 16);
    TimesIs((b % 16) * 4 + c / 64, 4);
  }

  lemma {:induction false} GroupValues(s: Bytes, a: Byte, b: Byte, c: Byte, k: nat)
    requires 2 <= k <= 4 && k <= |s| && s[..k] == Group(a, b, c)[..k]
    ensures Value(s, 0) == a / 4 && Value(s, 1) == (a % 4) * 16 + b / 16
    ensures k >= 3 ==> Value(s, 2) == (b % 16) * 4 + c / 64
    ensures k == 4 ==> Value(s, 3) == c % 64
  {
    var g := Group(a, b, c);
    assert s[0] == s[..k][0] == g[0] && s[1] == s[..k][1] == g[1];
    assert k >= 3 ==> s[2] == s[..k][2] == g[2];
    assert k == 4 ==> s[3] == s[..k][3] == g[3];
  }

  /** Whatever follows the text, decoding gives the bytes back. */
  lemma {:induction false} DecodeEncode(b: Bytes, rest: Bytes)
    requires b != []
    ensures Decode(Encode(b) + rest, |b|) == Some(b)
    decreases |b|
  {
    hide Group, Value, Byte1, Byte2, Byte3;
    var s := Encode(b) + rest;
    if |b| == 1 {
      GroupValues(s, b[0], 0, 0, 2);
      GroupDecodes(b[0], 0, 0);
      assert b == [b[0]];
    } else if |b| == 2 {
      GroupValues(s, b[0], b[1], 0, 3);
      GroupDecodes(b[0], b[1], 0);
      assert b == [b[0], b[1]];
    } else {
      GroupValues(s, b[0], b[1], b[2], 4);
      GroupDecodes(b[0], b[1], b[2]);
      assert b == [b[0], b[1], b[2]] + b[3..];
      if |b| > 3 {
        assert s[4..] == Encode(b[3..]) + rest;
        DecodeEncode(b[3..], rest);
      } else {
        assert b == [b[0], b[1], b[2]];
      }
    }
  }

  /** The bits of the last character that no byte takes. */
  function Spare(s: Bytes, n: nat): nat
    requires n >= 1 && |s| >= TextLength(n)
  {
    var last := Value(s, TextLength(n) - 1);
    if n % 3 == 1 then last % 16 else if n % 3 == 2 then last % 4 else 0
  }

  lemma {:induction false} ByteParts(c1: nat, c2: nat, c3: nat, c4: nat)
    requires c1 < 64 && c2 < 64 && c3 < 64 && c4 < 64
    ensures Byte1(c1, c2) / 4 == c1 && Byte1(c1, c2) % 4 == c2 / 16
    ensures Byte2(c2, c3) / 16 == c2 % 16 && Byte2(c2, c3) % 16 == c3 / 4
    ensures Byte3(c3, c4) / 64 == c3 % 4 && Byte3(c3, c4) % 64 == c4
  {
    hide Times;
    TimesIs(c2, 16);
    TimesIs(c3, 4);
  }

  /** The first `k` characters are of the alphabet. */
  predicate Spelled(s: Bytes, k: nat) {
    k <= |s| && forall i | 0 <= i < k :: Atoi64(s[i]) < 64
  }

  lemma {:induction false} SpelledValues(s: Bytes, k: nat)
    requires Spelled(s, k)
    ensures k <= |s| && forall i | 0 <= i < k :: Value(s, i) < 64 && s[i] == Itoa64(Value(s, i))
  {
  }

  lemma {:induction false} Differ(v: nat, w: nat)
    requires v < 64 && w < 64
    ensures Itoa64(v) == Itoa64(w) <==> v == w
  {
    AtoiItoa(v);
    AtoiItoa(w);
  }

  lemma {:induction false} EncodeDecodeOne(s: Bytes)
    requires Spelled(s, 2)
    ensures Decode(s, 1).Some? && (Encode(Decode(s, 1).value) == s[..2] <==> Spare(s, 1) == 0)
  {
    hide Value, Itoa64, Byte1, Byte2, Byte3;
    SpelledValues(s, 2);
    var c1, c2 := Value(s, 0), Value(s, 1);
    ByteParts(c1, c2, 0, 0);
    var t := Encode(Decode(s, 1).value);
    assert t == [Itoa64(c1), Itoa64(c2 / 16 * 16)];
    assert s[..2] == [Itoa64(c1), Itoa64(c2)];
    Differ(c2 / 16 * 16, c2);
  }

  lemma {:induction false} EncodeDecodeTwo(s: Bytes)
    requires Spelled(s, 3)
    ensures Decode(s, 2).Some? && (Encode(Decode(s, 2).value) == s[..3] <==> Spare(s, 2) == 0)
  {
    hide Value, Itoa64, Byte1, Byte2, Byte3;
    SpelledValues(s, 3);
    var c1, c2, c3 := Value(s, 0), Value(s, 1), Value(s, 2);
    ByteParts(c1, c2, c3, 0);
    var t := Encode(Decode(s, 2).value);
    assert t == [Itoa64(c1), Itoa64(c2), Itoa64(c3 / 4 * 4)];
    assert s[..3] == [Itoa64(c1), Itoa64(c2), Itoa64(c3)];
    Differ(c3 / 4 * 4, c3);
  }

  lemma {:induction false} EncodeDecodeThree(s: Bytes)
    requires Spelled(s, 4)
    ensures Decode(s, 3).Some? && Encode(Decode(s, 3).value) == s[..4]
  {
    hide Value, Itoa64, Byte1, Byte2, Byte3;
    SpelledValues(s, 4);
    var c1, c2, c3, c4 := Value(s, 0), Value(s, 1), Value(s, 2), Value(s, 3);
    ByteParts(c1, c2, c3, c4);
    assert s[..4] == [Itoa64(c1), Itoa64(c2), Itoa64(c3), Itoa64(c4)];
  }

  lemma {:induction false} SpelledBehind(s: Bytes, k: nat)
    requires k >= 4 && Spelled(s, k)
    ensures Spelled(s, 4) && Spelled(s[4..], k - 4)
  {
  }

  /** A longer text decodes group by group. */
  lemma {:induction false} DecodeFirst(s: Bytes, n: nat)
    requires n > 3 && Spelled(s, TextLength(n))
    ensures |s| >= 4 && Decode(s, 3).Some? && Decode(s, n) == Prepend(Decode(s, 3).value, Decode(s[4..], n - 3))
    ensures Spelled(s, 4) && Spelled(s[4..], TextLength(n - 3))
  {
    hide Value, Byte1, Byte2, Byte3;
    SpelledBehind(s, TextLength(n));
    SpelledValues(s, 4);
  }

  /** Encoding gives the text back exactly when its spare bits are zero. */
  lemma {:induction false} EncodeDecode(s: Bytes, n: nat)
    requires n >= 1 && Spelled(s, TextLength(n))
    ensures Decode(s, n).Some? && (Encode(Decode(s, n).value) == s[..TextLength(n)] <==> Spare(s, n) == 0)
    decreases n
  {
    hide Spelled, Decode, Encode, Spare;
    if n == 1 {
      EncodeDecodeOne(s);
    } else if n == 2 {
      EncodeDecodeTwo(s);
    } else if n == 3 {
      SpelledLength(s, TextLength(n));
      EncodeDecodeThree(s);
      NoSpare(s);
    } else {
      EncodeDecodeMany(s, n);
    }
  }

  lemma {:induction false} NoSpare(s: Bytes)
    requires |s| >= 4
    ensures TextLength(3) == 4 && Spare(s, 3) == 0
  {
  }

  lemma {:induction false} EncodeMany(a: Bytes, b: Bytes)
    requires |a| == 3 && b != []
    ensures Encode(a + b) == Encode(a) + Encode(b)
  {
    hide Group;
    assert (a + b)[3..] == b && (a + b)[0] == a[0] && (a + b)[1] == a[1] && (a + b)[2] == a[2];
  }

  lemma {:induction false} EncodeDecodeMany(s: Bytes, n: nat)
    requires n > 3 && Spelled(s, TextLength(n))
    ensures Decode(s, n).Some? && (Encode(Decode(s, n).value) == s[..TextLength(n)] <==> Spare(s, n) == 0)
    decreases n, 0
  {
    hide Decode, Encode, Value, Spelled, Spare;
    DecodeFirst(s, n);
    EncodeDecodeThree(s);
    EncodeDecode(s[4..], n - 3);
    var a, b := Decode(s, 3).value, Decode(s[4..], n - 3).value;
    EncodeMany(a, b);
    var k := TextLength(n - 3);
    SpelledLength(s, TextLength(n));
    assert s[..4 + k] == s[..4] + s[4..][..k];
    SpareStep(s, n);
    if Encode(a + b) == s[..4 + k] {
      SplitAt(Encode(a), s[..4], Encode(b), s[4..][..k]);
    }
  }

  lemma {:induction false} SpelledLength(s: Bytes, k: nat)
    requires Spelled(s, k)
    ensures k <= |s|
  {
  }

  lemma {:induction false} SpareStep(s: Bytes, n: nat)
    requires n > 3 && |s| >= 4 + TextLength(n - 3)
    ensures Spare(s, n) == Spare(s[4..], n - 3)
  {
    assert TextLength(n) == 4 + TextLength(n - 3) && TextLength(n - 3) >= 1;
    assert s[4..][TextLength(n - 3) - 1] == s[TextLength(n) - 1];
    assert n % 3 == (n - 3) % 3;
  }

  lemma {:induction false} ValuesAgree(s: Bytes, t: Bytes, k: nat)
    requires k <= |s| && k <= |t| && s[..k] == t[..k]
    ensures forall i | 0 <= i < k :: Value(s, i) == Value(t, i)
  {
    forall i | 0 <= i < k ensures Value(s, i) == Value(t, i) {
      assert s[i] == s[..k][i] && t[i] == t[..k][i];
    }
  }

  /** Decoding succeeds exactly on texts of the alphabet. */
  lemma {:induction false} DecodesIff(s: Bytes, n: nat)
    requires n >= 1
    ensures Decode(s, n).Some? <==> Spelled(s, TextLength(n))
    decreases n
  {
    hide Atoi64, Byte1, Byte2, Byte3, Value;
    ValueFacts(s, 0);
    ValueFacts(s, 1);
    ValueFacts(s, 2);
    ValueFacts(s, 3);
    if n > 3 && Value(s, 0) < 64 && Value(s, 1) < 64 && Value(s, 2) < 64 && Value(s, 3) < 64 {
      var k := TextLength(n - 3);
      DecodesIff(s[4..], n - 3);
      assert forall i | 0 <= i < k && 4 + i < |s| :: s[4..][i] == s[4 + i];
      assert forall i | 4 <= i < 4 + k && i < |s| :: s[i] == s[4..][i - 4];
    } else if n > 3 {
      assert TextLength(n) >= 4;
    }
  }

  predicate HighAlike(s: Bytes, t: Bytes, k: nat) {
    && 1 <= k <= |s|
    && k <= |t|
    && s[..k - 1] == t[..k - 1]
    && Value(s, k - 1) < 64
    && Value(t, k - 1) < 64
    && Value(s, k - 1) / 16 == Value(t, k - 1) / 16
  }

  lemma {:induction false} HighAlikeBehind(s: Bytes, t: Bytes, k: nat)
    requires HighAlike(s, t, k) && k >= 6
    ensures HighAlike(s[4..], t[4..], k - 4)
  {
    hide Value;
    assert s[4..][..k - 5] == s[..k - 1][4..] && t[4..][..k - 5] == t[..k - 1][4..];
    ValueBehind(s, k - 1);
    ValueBehind(t, k - 1);
  }

  lemma {:induction false} DecodeAlike(s: Bytes, t: Bytes, n: nat)
    requires n > 3 && |s| >= 4 && |t| >= 4 && Decode(s[4..], n - 3) == Decode(t[4..], n - 3)
    requires Value(s, 0) == Value(t, 0) && Value(s, 1) == Value(t, 1) && Value(s, 2) == Value(t, 2) && Value(s, 3) == Value(t, 3)
    ensures Decode(s, n) == Decode(t, n)
  {
    hide Value, Byte1, Byte2, Byte3;
  }

  /** Of a text for one byte past whole groups, the last character counts with its two high bits only. */
  lemma {:induction false} DecodeLastHigh(s: Bytes, t: Bytes, n: nat)
    requires n % 3 == 1 && HighAlike(s, t, TextLength(n))
    ensures Decode(s, n) == Decode(t, n)
    decreases n
  {
    hide Value, Decode, HighAlike, TextLength;
    var k := TextLength(n);
    HighAlikeValues(s, t, k);
    OneMore(n);
    if n == 1 {
      DecodeOneAlike(s, t);
    } else {
      HighAlikeBehind(s, t, k);
      DecodeLastHigh(s[4..], t[4..], n - 3);
      DecodeAlike(s, t, n);
    }
  }

  lemma {:induction false} OneMore(n: nat)
    requires n % 3 == 1
    ensures n == 1 ==> TextLength(n) == 2
    ensures n != 1 ==> n >= 4 && (n - 3) % 3 == 1 && TextLength(n) == 4 + TextLength(n - 3) && TextLength(n - 3) >= 2
  {
  }

  lemma {:induction false} HighAlikeValues(s: Bytes, t: Bytes, k: nat)
    requires HighAlike(s, t, k)
    ensures k <= |s| && k <= |t| && forall i | 0 <= i < k - 1 :: Value(s, i) == Value(t, i)
  {
    hide Value;
    ValuesAgree(s, t, k - 1);
  }

  lemma {:induction false} DecodeOneAlike(s: Bytes, t: Bytes)
    requires HighAlike(s, t, 2) && Value(s, 0) == Value(t, 0)
    ensures Decode(s, 1) == Decode(t, 1)
  {
    hide Value, Times;
    TimesIs(Value(s, 1), 16);
    TimesIs(Value(t, 1), 16);
  }

  lemma {:induction false} ValueBehind(s: Bytes, i: nat)
    requires 4 <= i < |s|
    ensures Value(s[4..], i - 4) == Value(s, i)
  {
  }

  // ----- the code -----

  lemma {:induction false} DecodeStops(s: Bytes, n: nat, before: Bytes)
    requires n >= 1
    ensures var c1, c2, c3, c4 := Value(s, 0), Value(s, 1), Value(s, 2), Value(s, 3);
            (c1 == 64 || c2 == 64 || (n >= 2 && c3 == 64) || (n >= 3 && c4 == 64) ==> Decode(s, n) == None) &&
            (c1 < 64 && c2 < 64 && n == 1 ==> Prepend(before, Decode(s, n)) == Some(before + [Byte1(c1, c2)])) &&
            (c1 < 64 && c2 < 64 && c3 < 64 && n == 2 ==>
              Prepend(before, Decode(s, n)) == Some(before + [Byte1(c1, c2)] + [Byte2(c2, c3)]))
  {
    var c1, c2, c3 := Value(s, 0), Value(s, 1), Value(s, 2);
    if c1 < 64 && c2 < 64 && c3 < 64 {
      assert before + [Byte1(c1, c2)] + [Byte2(c2, c3)] == before + [Byte1(c1, c2), Byte2(c2, c3)];
    }
  }

  lemma {:induction false} DecodeGoesOn(s: Bytes, n: nat, before: Bytes)
    requires n >= 3 && |s| >= 4 && Value(s, 0) < 64 && Value(s, 1) < 64 && Value(s, 2) < 64 && Value(s, 3) < 64
    ensures var after := before + [Byte1(Value(s, 0), Value(s, 1))] + [Byte2(Value(s, 1), Value(s, 2))]
                         + [Byte3(Value(s, 2), Value(s, 3))];
            Prepend(before, Decode(s, n)) == if n == 3 then Some(after) else Prepend(after, Decode(s[4..], n - 3))
  {
    hide Value, Byte1, Byte2, Byte3;
    var c1, c2, c3, c4 := Value(s, 0), Value(s, 1), Value(s, 2), Value(s, 3);
    var group := [Byte1(c1, c2), Byte2(c2, c3), Byte3(c3, c4)];
    assert before + [Byte1(c1, c2)] + [Byte2(c2, c3)] + [Byte3(c3, c4)] == before + group;
    if n > 3 && Decode(s[4..], n - 3).Some? {
      var rest := Decode(s[4..], n - 3).value;
      assert before + (group + rest) == (before + group) + rest;
    }
  }

  /** `BF_decode`; `bytes` is what it has written when it stops. */
  method DecodeLoop(src: Bytes, size: nat) returns (ok: bool, bytes: Bytes)
    requires size >= 1
    ensures Decode(src, size) == if ok then Some(bytes) else None
  {
    hide Decode, Value, Byte1, Byte2, Byte3;
    bytes := [];
    var i := 0;
    PrependNothing(src, size);
    while true
      invariant |bytes| < size && i <= |src|
      invariant Decode(src, size) == Prepend(bytes, Decode(src[i..], size - |bytes|))
      decreases size - |bytes|
    {
      ghost var s, n := src[i..], size - |bytes|;
      ShiftValues(src, i);
      DecodeStops(s, n, bytes);
      var c1 := Value(src, i);
      if c1 == 64 { return false, bytes; }
      var c2 := Value(src, i + 1);
      if c2 == 64 { return false, bytes; }
      ghost var before := bytes;
      bytes := bytes + [Byte1(c1, c2)];
      if |bytes| >= size { break; }
      var c3 := Value(src, i + 2);
      if c3 == 64 { return false, bytes; }
      bytes := bytes + [Byte2(c2, c3)];
      if |bytes| >= size { break; }
      var c4 := Value(src, i + 3);
      if c4 == 64 { return false, bytes; }
      bytes := bytes + [Byte3(c3, c4)];
      i := i + 4;
      ValueFacts(src, i - 1);
      DecodeGoesOn(s, n, before);
      if |bytes| >= size { break; }
      assert src[i..] == s[4..];
    }
    return true, bytes;
  }

  lemma {:induction false} PrependNothing(s: Bytes, n: nat)
    requires n >= 1
    ensures Prepend([], Decode(s[0..], n)) == Decode(s, n)
  {
    hide Decode;
    assert s[0..] == s;
    if Decode(s, n).Some? {
      assert [] + Decode(s, n).value == Decode(s, n).value;
    }
  }

  lemma {:induction false} ShiftValues(s: Bytes, i: nat)
    requires i <= |s|
    ensures Value(s[i..], 0) == Value(s, i) && Value(s[i..], 1) == Value(s, i + 1)
    ensures Value(s[i..], 2) == Value(s, i + 2) && Value(s[i..], 3) == Value(s, i + 3)
  {
  }

  lemma {:induction false} EncodeCases(b: Bytes, before: Bytes)
    requires b != []
    ensures var c1 := Itoa64(b[0] / 4);
            (|b| == 1 ==> before + Encode(b) == before + [c1] + [Itoa64((b[0] % 4) * 16)]) &&
            (|b| >= 2 ==>
              var c2 := Itoa64((b[0] % 4) * 16 + b[1] / 16);
              (|b| == 2 ==> before + Encode(b) == before + [c1] + [c2] + [Itoa64((b[1] % 16) * 4)]) &&
              (|b| >= 3 ==>
                var after := before + [c1] + [c2] + [Itoa64((b[1] % 16) * 4 + b[2] / 64)] + [Itoa64(b[2] % 64)];
                before + Encode(b) == if |b| == 3 then after else after + Encode(b[3..])))
  {
    var a := b[0];
    if |b| == 1 {
      assert Encode(b) == [Itoa64(a / 4)] + [Itoa64((a % 4) * 16)];
    } else if |b| == 2 {
      assert Encode(b) == [Itoa64(a / 4)] + [Itoa64((a % 4) * 16 + b[1] / 16)] + [Itoa64((b[1] % 16) * 4)];
    } else {
      var g := Group(a, b[1], b[2]);
      assert before + [g[0]] + [g[1]] + [g[2]] + [g[3]] == before + g;
      if |b| > 3 {
        assert before + (g + Encode(b[3..])) == (before + g) + Encode(b[3..]);
      }
    }
  }

  /** `BF_encode`, with its carry `c1` between the characters. */
  method EncodeLoop(src: Bytes) returns (text: Bytes)
    requires src != []
    ensures text == Encode(src)
  {
    hide Encode, Itoa64;
    text := [];
    var i := 0;
    assert src[0..] == src && [] + Encode(src) == Encode(src);
    while true
      invariant i < |src| && text + Encode(src[i..]) == Encode(src)
      decreases |src| - i
    {
      ghost var b := src[i..];
      EncodeCases(b, text);
      var c1: int := src[i];
      i := i + 1;
      text := text + [Itoa64(c1 / 4)];
      c1 := (c1 % 4) * 16;
      if i >= |src| {
        text := text + [Itoa64(c1)];
        break;
      }
      var c2: int := src[i];
      i := i + 1;
      c1 := c1 + c2 / 16;
      text := text + [Itoa64(c1)];
      c1 := (c2 % 16) * 4;
      if i >= |src| {
        text := text + [Itoa64(c1)];
        break;
      }
      c2 := src[i];
      i := i + 1;
      c1 := c1 + c2 / 64;
      text := text + [Itoa64(c1)];
      text := text + [Itoa64(c2 % 64)];
      if i >= |src| { break; }
      assert src[i..] == b[3..];
    }
  }
}
