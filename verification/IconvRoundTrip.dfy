/** From UTF-32 to UTF-16, EUC-JP, Shift_JIS or ISO-2022-JP and back. */
module IconvRoundTrip {
  import opened Common
  import opened Octets
  import opened Iconv
  import opened IconvLoop

  /** The reverse list names places of the 84 by 94 table. */
  ghost predicate RevOk(t: Tables) {
    forall i | 0 <= i < |t.rev| :: t.rev[i] / 256 < 84 && t.rev[i] % 256 < 94
  }

  predicate Wide(cs: Charset) {
    cs == Utf32BE || cs == Utf32LE || cs == WcharT
  }

  predicate Returns(cs: Charset) {
    Wide(cs) || cs == Utf16BE || cs == Utf16LE || cs == EucJp || cs == ShiftJis || cs == Iso2022Jp || cs == UsAscii
  }

  /** A text of code points that the decoder of UTF-32 takes, and without the escape character for ISO-2022-JP. */
  ghost predicate TextOk(to: Charset, text: seq<nat>) {
    forall i | 0 <= i < |text| :: CharOk(to, text[i])
  }

  predicate CharOk(to: Charset, c: nat) {
    Scalar(c) && (to == Iso2022Jp ==> c != 27)
  }

  function Text(t: Tables, to: Charset, text: seq<nat>): Bytes
    requires Target(to)
  {
    if text == [] then [] else Encode(t, to, text[0]).bytes + Text(t, to, text[1..])
  }

  function Replaced(t: Tables, to: Charset, text: seq<nat>): nat
    requires Target(to)
  {
    if text == [] then 0 else Lossy(Encode(t, to, text[0])) + Replaced(t, to, text[1..])
  }

  // ----- one character of each set -----

  lemma {:induction false} OrIsSum(x: nat, y: nat, k: nat)
    requires x < Pow2(k)
    ensures OrNat(x, y * Pow2(k)) == x + y * Pow2(k)
    decreases k
  {
    if k > 0 {
      var p := Pow2(k - 1);
      assert y * Pow2(k) == 2 * (y * p);
      OrIsSum(x / 2, y, k - 1);
    }
  }

  lemma {:induction false} HighSurrogate(x: nat)
    requires x < 0x400
    ensures OrNat(x, 0xd800) == x + 0xd800
  {
    hide OrNat;
    assert Pow2(11) == 2048 by {
      assert Pow2(3) == 8;
      assert Pow2(5) == 4 * Pow2(3);
      assert Pow2(7) == 4 * Pow2(5);
      assert Pow2(9) == 4 * Pow2(7);
      assert Pow2(11) == 4 * Pow2(9);
    }
    OrIsSum(x, 27, 11);
  }

  lemma {:induction false} Back16(c: nat, big: bool, rest: Bytes)
    requires Scalar(c)
    ensures Decode16(Encode16(c, big, true) + rest, big, true) == Char(|Encode16(c, big, true)|, c)
  {
    hide OrNat, Get16, Put16;
    var s := Encode16(c, big, true) + rest;
    if c < 0x1_0000 {
      Get16Put16(c, big, rest);
    } else {
      var e := c - 0x1_0000;
      HighSurrogate(e / 1024);
      var hi, lo := Put16(OrNat(e / 1024, 0xd800), big), Put16(e % 1024 + 0xdc00, big);
      assert s == hi + (lo + rest) && s[2..] == lo + rest;
      Get16Put16(e / 1024 + 0xd800, big, lo + rest);
      Get16Put16(e % 1024 + 0xdc00, big, rest);
      assert e == e / 1024 * 1024 + e % 1024;
    }
  }

  lemma {:induction false} Back32(c: nat, big: bool, rest: Bytes)
    requires Scalar(c)
    ensures Decode32(Put32(c, big) + rest, big) == Char(4, c)
  {
    hide Get32, Put32;
    Get32Put32(c, big, rest);
  }

  /** A code point that is found has its place in the table. */
  lemma {:induction false} FoundPlace(t: Tables, c: nat)
    requires RevOk(t) && UniToJis(t, c) != 0
    ensures var j := UniToJis(t, c);
            0x21 <= j / 256 < 0x21 + 84 && 0x21 <= j % 256 < 0x21 + 94 && t.jis(j / 256 - 0x21, j % 256 - 0x21) == c
  {
    hide Search, JisAt;
    SearchSound(t, c, 0, |t.rev|);
    var j := UniToJis(t, c);
    var p := j - 0x2121;
    JisPlace(t, p);
    assert p / 256 < 84 && p % 256 < 94;
    assert j == (p / 256 + 0x21) * 256 + (p % 256 + 0x21);
  }

  lemma {:induction false} JisPlace(t: Tables, j: nat)
    ensures JisAt(t, j) == t.jis(j / 256, j % 256)
  {
  }

  lemma {:induction false} BackEucJp(t: Tables, c: nat, rest: Bytes)
    requires RevOk(t) && Scalar(c) && !EncodeEucJp(t, c).lossy
    ensures var b := EncodeEucJp(t, c).bytes;
            DecodeEucJp(t, b + rest) == Char(|b|, c)
  {
    hide UniToJis;
    if c >= 128 && !IsKana(c) {
      FoundPlace(t, c);
    }
  }

  lemma {:induction false} BackShiftJis(t: Tables, c: nat, rest: Bytes)
    requires RevOk(t) && Scalar(c) && !EncodeShiftJis(t, c).lossy
    ensures var b := EncodeShiftJis(t, c).bytes;
            DecodeShiftJis(t, b + rest) == Char(|b|, c)
  {
    hide UniToJis, SjisLead, EncodeShiftJis, DecodeShiftJis, RevOk;
    if c >= 128 && !IsKana(c) {
      SjisLossy(t, c);
      FoundPlace(t, c);
      var j := UniToJis(t, c);
      var r, d := j / 256, j % 256;
      SjisBytes(r, d);
      var lead := (r + 1) / 2 + (if r < 95 then 112 else 176);
      var trail := if r % 2 == 1 then d + 31 + d / 96 else d + 126;
      SjisWrites(t, c, lead, trail);
      BackPair(t, lead, trail, r, d, c, rest);
    } else {
      BackSingle(t, c, rest);
    }
  }

  lemma {:induction false} SjisWrites(t: Tables, c: nat, lead: Byte, trail: Byte)
    requires c >= 128 && !IsKana(c) && UniToJis(t, c) != 0 && !EncodeShiftJis(t, c).lossy
    requires var r, d := UniToJis(t, c) / 256, UniToJis(t, c) % 256;
             lead == (r + 1) / 2 + (if r < 95 then 112 else 176) && trail == if r % 2 == 1 then d + 31 + d / 96 else d + 126
    ensures EncodeShiftJis(t, c).bytes == [lead, trail]
  {
    hide UniToJis;
  }

  lemma {:induction false} BackSingle(t: Tables, c: nat, rest: Bytes)
    requires (c < 128 || IsKana(c))
    ensures var b := EncodeShiftJis(t, c).bytes;
            DecodeShiftJis(t, b + rest) == Char(|b|, c)
  {
    hide UniToJis, SjisLead;
  }

  lemma {:induction false} SjisLossy(t: Tables, c: nat)
    requires c >= 128 && !IsKana(c) && !EncodeShiftJis(t, c).lossy
    ensures UniToJis(t, c) != 0
  {
    hide UniToJis;
  }

  lemma {:induction false} BackPair(t: Tables, lead: Byte, trail: Byte, r: nat, d: nat, c: nat, rest: Bytes)
    requires 0x21 <= r && 0x21 <= d && c != 0 && t.jis(r - 0x21, d - 0x21) == c
    requires (129 <= lead <= 159 || 224 <= lead <= 239) && SjisLead(lead) == (r - 0x21) / 2 * 2
    requires if r % 2 == 1 then 64 <= trail <= 158 && trail != 127 && (if trail > 127 then trail - 65 else trail - 64) == d - 0x21
             else 159 <= trail <= 252 && trail - 159 == d - 0x21
    ensures DecodeShiftJis(t, [lead, trail] + rest) == Char(2, c)
  {
    hide SjisLead;
    var s := [lead, trail] + rest;
    assert s[0] == lead && s[1] == trail && |s| >= 2;
    if r % 2 == 1 {
      assert (r - 0x21) / 2 * 2 == r - 0x21;
    } else {
      assert (r - 0x21) / 2 * 2 + 1 == r - 0x21;
    }
  }

  /** The two bytes that Shift_JIS makes of a place lead back to it. */
  lemma {:induction false} SjisBytes(r: nat, d: nat)
    requires 0x21 <= r < 0x21 + 84 && 0x21 <= d < 0x21 + 94
    ensures var lead := (r + 1) / 2 + (if r < 95 then 112 else 176);
            var trail := if r % 2 == 1 then d + 31 + d / 96 else d + 126;
            && (129 <= lead <= 159 || 224 <= lead <= 239)
            && SjisLead(lead) == (r - 0x21) / 2 * 2
            && (if r % 2 == 1 then 64 <= trail <= 158 && trail != 127 && (if trail > 127 then trail - 65 else trail - 64) == d - 0x21
                else 159 <= trail <= 252 && trail - 159 == d - 0x21)
  {
  }

  // ----- one character of the conversion -----

  function BackConv(t: Tables, from: Charset): Conversion {
    Conversion(t, from, Utf32BE)
  }

  lemma {:induction false} CharBack(t: Tables, to: Charset, c: nat, rest: Bytes)
    requires RevOk(t) && Returns(to) && CharOk(to, c) && !Encode(t, to, c).lossy && to != Iso2022Jp
    ensures var b := Encode(t, to, c).bytes;
            b != [] && Decode(t, to, Zero, b + rest) == Char(|b|, c)
  {
    hide EncodeShiftJis, EncodeEucJp, DecodeShiftJis, DecodeEucJp, Encode16, Decode16, Decode32, RevOk;
    EncodeWrites(t, to, c);
    match to
    case WcharT => Back32(c, true, rest);
    case Utf32BE => Back32(c, true, rest);
    case Utf32LE => Back32(c, false, rest);
    case Utf16BE => Back16(c, true, rest);
    case Utf16LE => Back16(c, false, rest);
    case EucJp => BackEucJp(t, c, rest);
    case ShiftJis => BackShiftJis(t, c, rest);
    case UsAscii =>
  }

  /** Reading one encoded character writes it in UTF-32 and leaves the state alone; in ISO-2022-JP
      this is the ASCII state, before and after. */
  lemma {:induction false} Reads(t: Tables, to: Charset, c: nat, rest: Bytes)
    requires RevOk(t) && Returns(to) && CharOk(to, c) && !Encode(t, to, c).lossy
    ensures Transcode(BackConv(t, to), Zero, Encode(t, to, c).bytes + rest)
            == Before(Put32(c, true), 0, Transcode(BackConv(t, to), Zero, rest))
  {
    hide Transcode, Encode, Decode, Before, RevOk, Put32;
    if to == Iso2022Jp {
      EncodeIso(t, c);
      ReadsIso(t, c, rest);
    } else {
      CharBack(t, to, c, rest);
      var b := Encode(t, to, c).bytes;
      Unfold(BackConv(t, to), Zero, b + rest, 0);
      assert (b + rest)[|b|..] == rest;
      EncodeWide(t, c);
    }
  }

  lemma {:induction false} EncodeIso(t: Tables, c: nat)
    ensures Encode(t, Iso2022Jp, c) == EncodeIso2022Jp(t, c)
  {
  }

  lemma {:induction false} EncodeWide(t: Tables, c: nat)
    ensures Encode(t, Utf32BE, c) == Written(Put32(c, true), false)
  {
  }

  const ASCII_AGAIN: Bytes := [27, 40, 66]

  /** The escape into a set, a character of it, and the escape back. */
  function Wrapped(esc: Bytes, b: Bytes): Bytes {
    esc + (b + ASCII_AGAIN)
  }

  lemma {:induction false} EscapesDecode(t: Tables, state: State, rest: Bytes)
    requires StateOk(Iso2022Jp, state)
    ensures Decode(t, Iso2022Jp, state, [27, 40, 74] + rest) == Skip(3, Shift(1))
    ensures Decode(t, Iso2022Jp, state, [27, 40, 73] + rest) == Skip(3, Shift(4))
    ensures Decode(t, Iso2022Jp, state, [27, 36, 66] + rest) == Skip(3, Shift(3))
    ensures Decode(t, Iso2022Jp, state, ASCII_AGAIN + rest) == Skip(3, Zero)
  {
  }

  lemma {:induction false} IsoRoman(t: Tables, c: nat, b: Byte, rest: Bytes)
    requires (c == 0xa5 && b == 92) || (c == 0x203e && b == 126)
    ensures EncodeIso2022Jp(t, c).bytes == Wrapped([27, 40, 74], [b]) && Decode(t, Iso2022Jp, Shift(1), [b] + rest) == Char(1, c)
  {
  }

  lemma {:induction false} IsoKana(t: Tables, c: nat, b: Byte, rest: Bytes)
    requires IsKana(c) && b == c - 0xff61 + 0x21
    ensures EncodeIso2022Jp(t, c).bytes == Wrapped([27, 40, 73], [b]) && Decode(t, Iso2022Jp, Shift(4), [b] + rest) == Char(1, c)
  {
  }

  lemma {:induction false} IsoKanji(t: Tables, c: nat, rest: Bytes)
    requires RevOk(t) && c >= 128 && c != 0xa5 && c != 0x203e && !IsKana(c) && UniToJis(t, c) != 0
    ensures var j := UniToJis(t, c);
            var b: Bytes := [j / 256 % 256, j % 256];
            EncodeIso2022Jp(t, c).bytes == Wrapped([27, 36, 66], b) && Decode(t, Iso2022Jp, Shift(3), b + rest) == Char(2, c)
  {
    hide UniToJis, RevOk;
    FoundPlace(t, c);
  }

  lemma {:induction false} ReadsIso(t: Tables, c: nat, rest: Bytes)
    requires RevOk(t) && CharOk(Iso2022Jp, c) && !EncodeIso2022Jp(t, c).lossy
    ensures Transcode(BackConv(t, Iso2022Jp), Zero, EncodeIso2022Jp(t, c).bytes + rest)
            == Before(Put32(c, true), 0, Transcode(BackConv(t, Iso2022Jp), Zero, rest))
  {
    hide Transcode, Before, RevOk, Put32, Wrapped, Decode;
    var u := ASCII_AGAIN + rest;
    if c < 128 {
      IsoPlain(t, c, rest);
      ReadsPlain(t, Zero, [c], rest, c);
    } else if c == 0xa5 || c == 0x203e {
      var b: Byte := if c == 0xa5 then 92 else 126;
      IsoRoman(t, c, b, u);
      EscapesDecode(t, Zero, [b] + u);
      ReadsShifted(t, Shift(1), [27, 40, 74], [b], c, rest);
    } else if IsKana(c) {
      var b: Byte := c - 0xff61 + 0x21;
      IsoKana(t, c, b, u);
      EscapesDecode(t, Zero, [b] + u);
      ReadsShifted(t, Shift(4), [27, 40, 73], [b], c, rest);
    } else {
      var j := UniToJis(t, c);
      var b: Bytes := [j / 256 % 256, j % 256];
      IsoKanji(t, c, u);
      EscapesDecode(t, Zero, b + u);
      ReadsShifted(t, Shift(3), [27, 36, 66], b, c, rest);
    }
  }

  lemma {:induction false} IsoPlain(t: Tables, c: nat, rest: Bytes)
    requires c < 128 && c != 27
    ensures EncodeIso2022Jp(t, c).bytes == [c] && Decode(t, Iso2022Jp, Zero, [c] + rest) == Char(1, c)
  {
  }

  lemma {:induction false} ReadsPlain(t: Tables, state: State, b: Bytes, rest: Bytes, c: nat)
    requires StateOk(Iso2022Jp, state) && b != [] && Decode(t, Iso2022Jp, state, b + rest) == Char(|b|, c)
    ensures Transcode(BackConv(t, Iso2022Jp), state, b + rest)
            == Before(Put32(c, true), 0, Transcode(BackConv(t, Iso2022Jp), state, rest))
  {
    hide Transcode, Decode, Encode, Before, Put32;
    Unfold(BackConv(t, Iso2022Jp), state, b + rest, 0);
    assert (b + rest)[|b|..] == rest;
    EncodeWide(t, c);
  }

  lemma {:induction false} ReadsEscape(t: Tables, state: State, state': State, esc: Bytes, rest: Bytes)
    requires StateOk(Iso2022Jp, state) && StateOk(Iso2022Jp, state') && |esc| == 3
    requires Decode(t, Iso2022Jp, state, esc + rest) == Skip(3, state')
    ensures Transcode(BackConv(t, Iso2022Jp), state, esc + rest) == Transcode(BackConv(t, Iso2022Jp), state', rest)
  {
    hide Transcode, Decode, Encode, Before;
    Unfold(BackConv(t, Iso2022Jp), state, esc + rest, 0);
    assert (esc + rest)[3..] == rest;
  }

  lemma {:induction false} ReadsShifted(t: Tables, shift: State, esc: Bytes, b: Bytes, c: nat, rest: Bytes)
    requires StateOk(Iso2022Jp, shift) && |esc| == 3 && b != []
    requires Decode(t, Iso2022Jp, Zero, esc + (b + (ASCII_AGAIN + rest))) == Skip(3, shift)
    requires Decode(t, Iso2022Jp, shift, b + (ASCII_AGAIN + rest)) == Char(|b|, c)
    ensures Transcode(BackConv(t, Iso2022Jp), Zero, Wrapped(esc, b) + rest)
            == Before(Put32(c, true), 0, Transcode(BackConv(t, Iso2022Jp), Zero, rest))
  {
    hide Transcode, Encode, Before, Put32, Decode;
    var u := ASCII_AGAIN + rest;
    assert Wrapped(esc, b) + rest == esc + (b + u);
    ReadsEscape(t, Zero, shift, esc, b + u);
    ReadsPlain(t, shift, b, u, c);
    EscapesDecode(t, shift, rest);
    ReadsEscape(t, shift, Zero, ASCII_AGAIN, rest);
  }

  // ----- whole texts -----

  lemma {:induction false} Forward(t: Tables, from: Charset, to: Charset, text: seq<nat>)
    requires Wide(from) && Target(to) && TextOk(from, text)
    ensures Transcode(Conversion(t, from, to), Zero, Text(t, from, text))
            == Outcome(Text(t, to, text), Replaced(t, to, text), [], Zero, Done)
    decreases text
  {
    hide Encode, Decode, Lossy;
    if text != [] {
      var cv := Conversion(t, from, to);
      var c, rest := text[0], Text(t, from, text[1..]);
      WideChar(t, from, c, rest);
      var b := Encode(t, from, c).bytes;
      Unfold(cv, Zero, b + rest, 0);
      assert (b + rest)[|b|..] == rest;
      Forward(t, from, to, text[1..]);
    }
  }

  lemma {:induction false} WideChar(t: Tables, from: Charset, c: nat, rest: Bytes)
    requires Wide(from) && Scalar(c)
    ensures var b := Encode(t, from, c).bytes;
            b != [] && Decode(t, from, Zero, b + rest) == Char(|b|, c)
  {
    hide Put32, Decode32;
    Back32(c, true, rest);
    Back32(c, false, rest);
  }

  lemma {:induction false} Backward(t: Tables, to: Charset, text: seq<nat>)
    requires RevOk(t) && Returns(to) && Target(to) && TextOk(to, text) && Replaced(t, to, text) == 0
    ensures Transcode(BackConv(t, to), Zero, Text(t, to, text)) == Outcome(Text(t, Utf32BE, text), 0, [], Zero, Done)
    decreases text
  {
    hide Encode, RevOk, Transcode, Put32, Lossy, CharOk, Returns;
    if text == [] {
      NothingLeft(BackConv(t, to), Zero);
    } else {
      NotLossy(Encode(t, to, text[0]));
      Reads(t, to, text[0], Text(t, to, text[1..]));
      Backward(t, to, text[1..]);
      EncodeWide(t, text[0]);
    }
  }

  lemma {:induction false} NotLossy(w: Written)
    ensures Lossy(w) == 0 <==> !w.lossy
  {
  }

  /** Whenever the way out replaced nothing, the way back gives the text again. */
  lemma {:induction false} RoundTrip(t: Tables, from: Charset, to: Charset, text: seq<nat>)
    requires RevOk(t) && Wide(from) && Returns(to) && TextOk(to, text)
    ensures var out := Transcode(Conversion(t, from, to), Zero, Text(t, from, text));
            out.stop == Done && out.rest == [] && (out.lossy == 0 ==>
              Transcode(BackConv(t, to), Zero, out.bytes) == Outcome(Text(t, Utf32BE, text), 0, [], Zero, Done))
  {
    hide Transcode, Text, Replaced, RevOk;
    assert TextOk(from, text);
    Forward(t, from, to, text);
    if Replaced(t, to, text) == 0 {
      Backward(t, to, text);
    }
  }

  // ----- the escape character -----

  /** Table entries are 16-bit code points, and the escape character is none of them. */
  ghost predicate JisOk(t: Tables) {
    forall row, col :: t.jis(row, col) < 0x1_0000 && t.jis(row, col) != 27
  }

  lemma {:induction false} IsoNeverDecodesEsc(t: Tables, state: State, s: Bytes)
    requires JisOk(t) && StateOk(Iso2022Jp, state) && s != []
    ensures var step := Decode(t, Iso2022Jp, state, s);
            step.Char? ==> step.c != 27 && step.c < 0x1_0000_0000
  {
  }

  lemma {:induction false} Put32Injective(a: nat, b: nat)
    requires a < 0x1_0000_0000 && b < 0x1_0000_0000 && Put32(a, true) == Put32(b, true)
    ensures a == b
  {
    hide Put32, Get32;
    Get32Put32(a, true, []);
    Get32Put32(b, true, []);
  }

  /** Whatever ISO-2022-JP decodes to, it does not begin with the escape character. */
  lemma {:induction false} NoEscFirst(t: Tables, state: State, s: Bytes)
    requires JisOk(t) && StateOk(Iso2022Jp, state)
    ensures !(Put32(27, true) <= Transcode(BackConv(t, Iso2022Jp), state, s).bytes)
    decreases |s|, Measure(state)
  {
    hide Decode, Encode, Before, Put32, JisOk, Transcode;
    var cv := BackConv(t, Iso2022Jp);
    if s == [] {
      NothingLeft(cv, state);
    } else {
      Unfold(cv, state, s, 0);
      UnfoldStops(cv, state, s);
      IsoNeverDecodesEsc(t, state, s);
      match Decode(t, Iso2022Jp, state, s)
      case IlSeq =>
      case Starved =>
      case Skip(len, state') => NoEscFirst(t, state', s[len..]);
      case Char(len, c) =>
        EncodeWide(t, c);
        var o := Transcode(cv, state, s[len..]);
        BeforeFields(Put32(c, true), 0, o);
        if Put32(27, true) <= Put32(c, true) + o.bytes {
          assert Put32(27, true) == (Put32(c, true) + o.bytes)[..4] == Put32(c, true);
          Put32Injective(27, c);
        }
    }
  }

  lemma {:induction false} NothingLeft(cv: Conversion, state: State)
    requires ConvOk(cv, state)
    ensures Transcode(cv, state, []) == Outcome([], 0, [], state, Done)
  {
  }

  /** A text with an escape character does not come back from ISO-2022-JP. */
  lemma {:induction false} EscIsLost(t: Tables, text: seq<nat>)
    requires RevOk(t) && JisOk(t) && TextOk(Utf32BE, text) && Replaced(t, Iso2022Jp, text) == 0 && 27 in text
    ensures Transcode(BackConv(t, Iso2022Jp), Zero, Text(t, Iso2022Jp, text)).bytes != Text(t, Utf32BE, text)
    decreases text
  {
    hide Encode, RevOk, JisOk, Transcode, Put32;
    var cv := BackConv(t, Iso2022Jp);
    var c, rest := text[0], Text(t, Iso2022Jp, text[1..]);
    var wide := Text(t, Utf32BE, text[1..]);
    EncodeWide(t, c);
    if c == 27 {
      NoEscFirst(t, Zero, Text(t, Iso2022Jp, text));
      assert Put32(27, true) <= Put32(27, true) + wide;
    } else {
      Reads(t, Iso2022Jp, c, rest);
      EscIsLost(t, text[1..]);
      var o := Transcode(cv, Zero, rest);
      BeforeFields(Put32(c, true), 0, o);
      assert (Put32(c, true) + o.bytes)[4..] == o.bytes && (Put32(c, true) + wide)[4..] == wide;
    }
  }

  /** The exact condition: what was not replaced on the way out comes back, but for the escape
      character in ISO-2022-JP. */
  lemma {:induction false} RoundTripIff(t: Tables, from: Charset, to: Charset, text: seq<nat>)
    requires RevOk(t) && JisOk(t) && Wide(from) && Returns(to) && TextOk(Utf32BE, text)
    ensures var out := Transcode(Conversion(t, from, to), Zero, Text(t, from, text));
            out.stop == Done && out.rest == [] && (out.lossy == 0 ==>
              (Transcode(BackConv(t, to), Zero, out.bytes).bytes == Text(t, Utf32BE, text) <==> !(to == Iso2022Jp && 27 in text)))
  {
    hide Transcode, Text, Replaced, RevOk, JisOk;
    assert TextOk(from, text);
    Forward(t, from, to, text);
    if Replaced(t, to, text) == 0 {
      if to == Iso2022Jp && 27 in text {
        EscIsLost(t, text);
      } else {
        assert TextOk(to, text);
        Backward(t, to, text);
      }
    }
  }
}
