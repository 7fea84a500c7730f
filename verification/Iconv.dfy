/**
 * iconv's character sets, one character at a time: what a decoder makes of the input in front of
 * it, and what an encoder writes for a code point.
 */
module Iconv {
  import opened Octets
  import opened IconvRank

  datatype Charset =
    | Utf32BE | Utf16LE | Utf16BE | Utf32LE | Ucs2BE | Ucs2LE | WcharT | UsAscii
    | Utf16 | Utf32 | Ucs2 | EucJp | ShiftJis | Iso2022Jp | Gb18030 | Gbk | Gb2312 | EucKr

  /** `scd->state`: zero, the byte order found, or the shift state of ISO-2022-JP. */
  datatype State = Zero | Order(order: Charset) | Shift(mode: nat)

  /** The big tables; `rev` lists the places of `jis` by code point. */
  datatype Tables = Tables(jis: (nat, nat) -> nat, rev: seq<nat>, gb: (nat, nat) -> nat, ksc: (nat, nat) -> nat)

  datatype Step = Char(len: nat, c: nat) | Skip(len: nat, state: State) | IlSeq | Starved

  datatype Written = Written(bytes: Bytes, lossy: bool)

  // ----- words -----

  function Get16(s: Bytes, big: bool): (c: nat)
    requires |s| >= 2
    ensures c < 0x1_0000
  {
    var a: int, b: int := s[0], s[1];
    if big then a * 256 + b else b * 256 + a
  }

  function Get32(s: Bytes, big: bool): (c: nat)
    requires |s| >= 4
    ensures c < 0x1_0000_0000
  {
    var a: int, b: int, c: int, d: int := s[0], s[1], s[2], s[3];
    if big then a * 0x100_0000 + b * 0x1_0000 + c * 0x100 + d else d * 0x100_0000 + c * 0x1_0000 + b * 0x100 + a
  }

  function Put16(c: nat, big: bool): (s: Bytes)
    ensures |s| == 2
  {
    var hi, lo := c / 0x100 % 0x100, c % 0x100;
    if big then [hi, lo] else [lo, hi]
  }

  function Put32(c: nat, big: bool): (s: Bytes)
    ensures |s| == 4
  {
    var a, b, c, d := c / 0x100_0000 % 0x100, c / 0x1_0000 % 0x100, c / 0x100 % 0x100, c % 0x100;
    if big then [a, b, c, d] else [d, c, b, a]
  }

  lemma {:induction false} Get16Put16(c: nat, big: bool, rest: Bytes)
    requires c < 0x1_0000
    ensures Get16(Put16(c, big) + rest, big) == c
  {
  }

  lemma {:induction false} Get32Put32(c: nat, big: bool, rest: Bytes)
    requires c < 0x1_0000_0000
    ensures Get32(Put32(c, big) + rest, big) == c
  {
    var x, y := c / 0x100, c / 0x1_0000;
    var z := c / 0x100_0000;
    assert c == x * 0x100 + c % 0x100 && x == y * 0x100 + x % 0x100 && y == z * 0x100 + y % 0x100 && z < 0x100;
    var s := Put32(c, big) + rest;
    assert s[..4] == Put32(c, big);
  }

  predicate Scalar(c: nat) {
    c < 0xd800 || 0xe000 <= c < 0x11_0000
  }

  // ----- decoders -----

  function Decode32(s: Bytes, big: bool): Step {
    if |s| < 4 then Starved
    else if !Scalar(Get32(s, big)) then IlSeq
    else Char(4, Get32(s, big))
  }

  function Decode16(s: Bytes, big: bool, pairs: bool): Step {
    if |s| < 2 then Starved
    else
      var c := Get16(s, big);
      if 0xdc00 <= c < 0xe000 then IlSeq
      else if !(0xd800 <= c < 0xdc00) then Char(2, c)
      else if !pairs then IlSeq
      else if |s| < 4 then Starved
      else
        var d := Get16(s[2..], big);
        if !(0xdc00 <= d < 0xe000) then IlSeq else Char(4, (c - 0xd7c0) * 1024 + (d - 0xdc00))
  }

  /** The byte order mark; without one, nothing is taken and the order is big-endian. */
  function Sniff16(s: Bytes, pairs: bool): Step {
    if |s| < 2 then Starved
    else
      var c := Get16(s, true);
      var order := if c == 0xfffe then (if pairs then Utf16LE else Ucs2LE) else if pairs then Utf16BE else Ucs2BE;
      Skip(if c == 0xfffe || c == 0xfeff then 2 else 0, Order(order))
  }

  function Sniff32(s: Bytes): Step {
    if |s| < 4 then Starved
    else
      var c := Get32(s, true);
      Skip(if c == 0xfffe_0000 || c == 0xfeff then 4 else 0, Order(if c == 0xfffe_0000 then Utf32LE else Utf32BE))
  }

  function Mapped(len: nat, c: nat): Step {
    if c == 0 then IlSeq else Char(len, c)
  }

  /** The row of a Shift_JIS pair, before its trail byte is looked at. */
  function SjisLead(c: nat): int {
    if 129 <= c <= 159 then (c - 129) * 2 else if 224 <= c <= 239 then (c - 193) * 2 else -1
  }

  function DecodeShiftJis(t: Tables, s: Bytes): Step
    requires s != []
  {
    var c: int := s[0];
    if c < 128 then Char(1, c)
    else if 0xa1 <= c <= 0xdf then Char(1, c + (0xff61 - 0xa1))
    else if |s| < 2 then Starved
    else if SjisLead(c) < 0 then IlSeq
    else
      var row := SjisLead(c);
      var d: int := s[1];
      if d == 127 then IlSeq
      else if 64 <= d <= 158 then Mapped(2, t.jis(row, if d > 127 then d - 65 else d - 64))
      else if 159 <= d <= 252 then Mapped(2, t.jis(row + 1, d - 159))
      else Mapped(2, t.jis(row, d))
  }

  function DecodeEucJp(t: Tables, s: Bytes): Step
    requires s != []
  {
    var c: int := s[0];
    if c < 128 then Char(1, c)
    else if |s| < 2 then Starved
    else
      var d: int := s[1];
      if c == 0x8e then (if 0xa1 <= d <= 0xdf then Char(2, d + (0xff61 - 0xa1)) else IlSeq)
      else if !(0xa1 <= c < 0xa1 + 84) || !(0xa1 <= d < 0xa1 + 94) then IlSeq
      else Mapped(2, t.jis(c - 0xa1, d - 0xa1))
  }

  /** An escape sequence; the source adds 128 to its last byte for '$', so that a last byte with
      the high bit behind '(' selects a two-byte set as well. */
  function DecodeEscape(s: Bytes): Step
    requires s != []
  {
    if |s| < 3 then Starved
    else if s[1] != 40 && s[1] != 36 then IlSeq
    else
      var last: int := s[2];
      var select := (if s[1] == 36 then 128 else 0) + last;
      if select == 66 then Skip(3, Zero)
      else if select == 74 then Skip(3, Shift(1))
      else if select == 73 then Skip(3, Shift(4))
      else if select == 128 + 64 then Skip(3, Shift(2))
      else if select == 128 + 66 then Skip(3, Shift(3))
      else IlSeq
  }

  function DecodeIso2022Jp(t: Tables, state: State, s: Bytes): Step
    requires s != []
  {
    var c: int := s[0];
    if c >= 128 then IlSeq
    else if c == 27 then DecodeEscape(s)
    else if state == Shift(1) then Char(1, if c == 92 then 0xa5 else if c == 126 then 0x203e else c)
    else if state == Shift(2) || state == Shift(3) then
      if |s| < 2 then Starved
      else
        var d: int := s[1];
        if !(0x21 <= c < 0x21 + 84) || !(0x21 <= d < 0x21 + 94) then IlSeq else Mapped(2, t.jis(c - 0x21, d - 0x21))
    else if state == Shift(4) then
      if 0x60 <= c < 0x7f then IlSeq else Char(1, if 0x21 <= c < 0x7f then c + (0xff61 - 0x21) else c)
    else Char(1, c)
  }

  function DecodeGb(t: Tables, cs: Charset, s: Bytes): Step
    requires s != []
  {
    var c: int := s[0];
    if c < 128 then Char(1, c)
    else if (cs == Gb2312 && c < 0xa1) || !(0x81 <= c < 0x81 + 126) then IlSeq
    else if |s| < 2 then Starved
    else
      var d: int := s[1];
      if cs == Gb2312 && d < 0xa1 then IlSeq
      else if d < 0x40 || d == 255 || d == 127 then
        if !(48 <= d <= 57) || cs != Gb18030 then IlSeq
        else if |s| < 4 then Starved
        else
          var e: int, f: int := s[2], s[3];
          if e < 0x81 || !(48 <= f <= 57) then IlSeq
          else
            var index := (10 * (c - 0x81) + (d - 48)) * 1260 + 10 * (e - 0x81) + (f - 48) + 128;
            Char(4, Rank(Grid(126, 190, t.gb), 0, index))
      else Char(2, t.gb(c - 0x81, if d - 0x40 > 63 then d - 0x41 else d - 0x40))
  }

  /** The column of an extension character of EUC-KR. */
  function KrColumn(d: int): int {
    if 65 <= d < 65 + 26 then d - 65 else if 97 <= d < 97 + 26 then d - 97 + 26 else if 0x81 <= d < 0xff then d - 0x81 + 52 else -1
  }

  function DecodeEucKr(t: Tables, s: Bytes): Step
    requires s != []
  {
    var c: int := s[0];
    if c < 128 then Char(1, c)
    else if |s| < 2 then Starved
    else
      var d: int := s[1];
      if 0xa1 <= c < 0xa1 + 93 && 0xa1 <= d < 0xa1 + 94 then Mapped(2, t.ksc(c - 0xa1, d - 0xa1))
      else if !(0x81 <= c < 0x81 + 93) || (c >= 0xc6 && d > 0x52) || KrColumn(d) < 0 then IlSeq
      else
        var row := c - 0x81;
        var index := if row < 0x20 then 178 * row + KrColumn(d) else 178 * 0x20 + 84 * (row - 0x20) + KrColumn(d);
        Char(2, Rank(Grid(93, 94, t.ksc), 0xac00, index + 0xac00))
  }

  predicate Sniffs(cs: Charset) {
    cs == Utf16 || cs == Ucs2 || cs == Utf32
  }

  /** The decoder of a character set without a byte order mark to look for. */
  function DecodeFixed(t: Tables, cs: Charset, state: State, s: Bytes): Step
    requires s != [] && !Sniffs(cs)
  {
    match cs
    case Utf32BE => Decode32(s, true)
    case Utf32LE => Decode32(s, false)
    case WcharT => Decode32(s, true)
    case UsAscii => if s[0] >= 128 then IlSeq else Char(1, s[0])
    case Ucs2BE => Decode16(s, true, false)
    case Ucs2LE => Decode16(s, false, false)
    case Utf16BE => Decode16(s, true, true)
    case Utf16LE => Decode16(s, false, true)
    case EucJp => DecodeEucJp(t, s)
    case ShiftJis => DecodeShiftJis(t, s)
    case Iso2022Jp => DecodeIso2022Jp(t, state, s)
    case Gb18030 => DecodeGb(t, cs, s)
    case Gbk => DecodeGb(t, cs, s)
    case Gb2312 => DecodeGb(t, cs, s)
    case EucKr => DecodeEucKr(t, s)
  }

  /** What a descriptor's state can be. */
  predicate StateOk(cs: Charset, state: State) {
    match state
    case Zero => true
    case Order(order) =>
      (cs == Utf16 && (order == Utf16BE || order == Utf16LE)) || (cs == Ucs2 && (order == Ucs2BE || order == Ucs2LE))
      || (cs == Utf32 && (order == Utf32BE || order == Utf32LE))
    case Shift(mode) => cs == Iso2022Jp && 1 <= mode <= 4
  }

  function Decode(t: Tables, cs: Charset, state: State, s: Bytes): Step
    requires s != [] && StateOk(cs, state)
  {
    if !Sniffs(cs) then DecodeFixed(t, cs, state, s)
    else if state != Zero then DecodeFixed(t, state.order, state, s)
    else if cs == Utf32 then Sniff32(s)
    else Sniff16(s, cs == Utf16)
  }

  /** A step takes what is there and makes headway: some input, or the byte order. */
  lemma {:induction false} DecodeSteps(t: Tables, cs: Charset, state: State, s: Bytes)
    requires s != [] && StateOk(cs, state)
    ensures var step := Decode(t, cs, state, s);
            (step.Char? ==> 0 < step.len <= |s|)
            && (step.Skip? ==> step.len <= |s| && StateOk(cs, step.state) && (step.len == 0 ==> state == Zero && step.state != Zero))
  {
    hide Get16, Get32, Rank, SjisLead, KrColumn;
  }

  // ----- uni_to_jis -----

  function JisAt(t: Tables, j: nat): nat {
    t.jis(j / 256, j % 256)
  }

  /** The binary search among `nel` entries from `b` on; zero when it fails. */
  function Search(t: Tables, c: nat, b: nat, nel: nat): nat
    requires 1 <= nel && b + nel <= |t.rev|
    decreases nel
  {
    var i := nel / 2;
    var j := t.rev[b + i];
    var d := JisAt(t, j);
    if d == c then j + 0x2121
    else if nel == 1 then 0
    else if c < d then Search(t, c, b, nel / 2)
    else Search(t, c, b + i, nel - nel / 2)
  }

  function UniToJis(t: Tables, c: nat): nat {
    if t.rev == [] then 0 else Search(t, c, 0, |t.rev|)
  }

  method UniToJisLoop(t: Tables, c: nat) returns (r: nat)
    requires t.rev != []
    ensures r == UniToJis(t, c)
  {
    var nel, b: nat := |t.rev|, 0;
    while true
      invariant 1 <= nel && b + nel <= |t.rev| && Search(t, c, b, nel) == UniToJis(t, c)
      decreases nel
    {
      var i := nel / 2;
      var j := t.rev[b + i];
      var d := JisAt(t, j);
      if d == c {
        return j + 0x2121;
      } else if nel == 1 {
        return 0;
      } else if c < d {
        nel := nel / 2;
      } else {
        b := b + i;
        nel := nel - nel / 2;
      }
    }
  }

  /** What the search finds is a place of the code point, whatever the order of the list. */
  lemma {:induction false} SearchSound(t: Tables, c: nat, b: nat, nel: nat)
    requires 1 <= nel && b + nel <= |t.rev|
    ensures var r := Search(t, c, b, nel);
            r == 0 || (r >= 0x2121 && r - 0x2121 in t.rev && JisAt(t, r - 0x2121) == c)
    decreases nel
  {
    hide JisAt;
    var i := nel / 2;
    var d := JisAt(t, t.rev[b + i]);
    if d != c && nel > 1 {
      if c < d {
        SearchSound(t, c, b, nel / 2);
      } else {
        SearchSound(t, c, b + i, nel - nel / 2);
      }
    }
  }

  ghost predicate RevSorted(t: Tables) {
    forall i, j | 0 <= i < j < |t.rev| :: JisAt(t, t.rev[i]) < JisAt(t, t.rev[j])
  }

  /** In a sorted list it finds every code point that is there. */
  lemma {:induction false} SearchComplete(t: Tables, c: nat, b: nat, nel: nat, k: nat)
    requires 1 <= nel && b + nel <= |t.rev| && RevSorted(t) && b <= k < b + nel && JisAt(t, t.rev[k]) == c
    ensures Search(t, c, b, nel) == t.rev[k] + 0x2121
    decreases nel
  {
    hide JisAt;
    var i := nel / 2;
    var d := JisAt(t, t.rev[b + i]);
    if d != c && nel > 1 {
      if c < d {
        SearchComplete(t, c, b, nel / 2, k);
      } else {
        SearchComplete(t, c, b + i, nel - nel / 2, k);
      }
    } else if d == c {
      assert k == b + i;
    }
  }

  // ----- encoders -----

  /** Bitwise or. */
  function OrNat(a: nat, b: nat): nat
    decreases a + b
  {
    if a == 0 then b else if b == 0 then a
    else 2 * OrNat(a / 2, b / 2) + (if a % 2 == 1 || b % 2 == 1 then 1 else 0)
  }

  function Star(): Written {
    Written([42], true)
  }

  predicate IsKana(c: nat) {
    0xff61 <= c <= 0xff9f
  }

  function EncodeShiftJis(t: Tables, c: nat): Written {
    if c < 128 then Written([c], false)
    else if c == 0xa5 then Written([92], true)
    else if c == 0x203e then Written([126], true)
    else if IsKana(c) then Written([c - 0xff61 + 0xa1], false)
    else
      var j := UniToJis(t, c);
      if j == 0 then Star()
      else
        var r, d := j / 256, j % 256;
        Written([((r + 1) / 2 + (if r < 95 then 112 else 176)) % 256, (if r % 2 == 1 then d + 31 + d / 96 else d + 126) % 256], false)
  }

  function EncodeEucJp(t: Tables, c: nat): Written {
    if c < 128 then Written([c], false)
    else
      var j := if IsKana(c) then 0x0e00 + 0x21 + (c - 0xff61) else UniToJis(t, c);
      if j == 0 then Star() else Written([(j / 256 + 0x80) % 256, (j % 256 + 0x80) % 256], false)
  }

  /** Outside ASCII, every character is wrapped in its own escape sequences. */
  function EncodeIso2022Jp(t: Tables, c: nat): Written {
    if c < 128 then Written([c], false)
    else if c == 0xa5 then Written([27, 40, 74, 92, 27, 40, 66], false)
    else if c == 0x203e then Written([27, 40, 74, 126, 27, 40, 66], false)
    else if IsKana(c) then Written([27, 40, 73, c - 0xff61 + 0x21, 27, 40, 66], false)
    else
      var j := UniToJis(t, c);
      if j == 0 then Star() else Written([27, 36, 66, j / 256 % 256, j % 256, 27, 40, 66], false)
  }

  function Encode16(c: nat, big: bool, pairs: bool): Bytes {
    if c < 0x1_0000 then Put16(c, big)
    else if !pairs then Put16(0xfffd, big)
    else
      var e := c - 0x1_0000;
      Put16(OrNat(e / 1024, 0xd800), big) + Put16(e % 1024 + 0xdc00, big)
  }

  /** The sets that `iconv_open` allows as targets. */
  predicate Target(cs: Charset) {
    cs != Gb18030 && cs != Gbk && cs != Gb2312 && cs != EucKr
  }

  function Encode(t: Tables, to: Charset, c: nat): Written
    requires Target(to)
  {
    match to
    case WcharT => Written(Put32(c, true), false)
    case UsAscii => if c > 0x7f then Star() else Written([c], false)
    case ShiftJis => EncodeShiftJis(t, c)
    case EucJp => EncodeEucJp(t, c)
    case Iso2022Jp => EncodeIso2022Jp(t, c)
    case Ucs2 => Written(Encode16(c, true, false), false)
    case Ucs2BE => Written(Encode16(c, true, false), false)
    case Ucs2LE => Written(Encode16(c, false, false), false)
    case Utf16 => Written(Encode16(c, true, true), false)
    case Utf16BE => Written(Encode16(c, true, true), false)
    case Utf16LE => Written(Encode16(c, false, true), false)
    case Utf32 => Written(Put32(c, true), false)
    case Utf32BE => Written(Put32(c, true), false)
    case Utf32LE => Written(Put32(c, false), false)
  }

  /** No encoder writes nothing. */
  lemma {:induction false} EncodeWrites(t: Tables, to: Charset, c: nat)
    requires Target(to)
    ensures 1 <= |Encode(t, to, c).bytes| <= 8
  {
    hide UniToJis, Put16, Put32;
  }
}
