/** `BF_set_key`: the key schedule of bcrypt, with the emulated sign-extension bug and the safety measure. */
module BlowfishKey {
  import opened Common
  import opened HashStream

  type KeyByte = bv8
  type Key = seq<KeyByte>

  // ----- the key, with its NUL, without end -----

  function ByteAt(key: Key, k: nat): KeyByte {
    var p := k % (|key| + 1);
    if p == |key| then 0 else key[p]
  }

  lemma {:induction false} NextByte(key: Key, k: nat)
    ensures var n := |key| + 1; (k + 1) % n == if k % n == |key| then 0 else k % n + 1
  {
    var n := |key| + 1;
    var q, r := k / n, k % n;
    assert k == q * n + r;
    if r == |key| {
      assert k + 1 == (q + 1) * n + 0;
      UniqueRemainder(k + 1, n, q + 1, 0);
    } else {
      UniqueRemainder(k + 1, n, q, r + 1);
    }
  }

  // ----- the two expansions -----

  function Unsigned(b: KeyByte): Word {
    b as Word
  }

  /** A byte cast through `signed char`. */
  function Signed(b: KeyByte): Word {
    if b >= 0x80 then 0xffff_ff00 | b as Word else b as Word
  }

  function Push(tmp: Word, x: Word): Word {
    (tmp << 8) | x
  }

  function Correct(a: KeyByte, b: KeyByte, c: KeyByte, d: KeyByte): Word {
    Push(Push(Push(Push(0, Unsigned(a)), Unsigned(b)), Unsigned(c)), Unsigned(d))
  }

  function Buggy(a: KeyByte, b: KeyByte, c: KeyByte, d: KeyByte): Word {
    Push(Push(Push(Push(0, Signed(a)), Signed(b)), Signed(c)), Signed(d))
  }

  lemma {:induction false} PushBytes(a: Word, b: Word, c: Word, d: Word)
    ensures Push(Push(Push(Push(0, a), b), c), d) == (a << 24) | (b << 16) | (c << 8) | d
  {
  }

  /** The correct expansion is the big-endian word. */
  lemma {:induction false} CorrectIsBigEndian(a: KeyByte, b: KeyByte, c: KeyByte, d: KeyByte)
    ensures Correct(a, b, c, d) == (Unsigned(a) << 24) | (Unsigned(b) << 16) | (Unsigned(c) << 8) | Unsigned(d)
  {
    hide Unsigned, Push;
    PushBytes(Unsigned(a), Unsigned(b), Unsigned(c), Unsigned(d));
  }

  /** The expansions of a word agree exactly when every negative byte stands behind 0xff bytes only. */
  lemma {:induction false} AgreeIff(a: KeyByte, b: KeyByte, c: KeyByte, d: KeyByte)
    ensures Correct(a, b, c, d) == Buggy(a, b, c, d) <==>
            (b >= 0x80 ==> a == 0xff) && (c >= 0x80 ==> a == 0xff && b == 0xff) && (d >= 0x80 ==> a == 0xff && b == 0xff && c == 0xff)
  {
    hide Unsigned, Signed, Push, Extended;
    ByteFacts(a);
    ByteFacts(b);
    ByteFacts(c);
    ByteFacts(d);
    AgreeWords(Unsigned(a), Unsigned(b), Unsigned(c), Unsigned(d));
  }

  function Extended(a: Word): Word {
    if a >= 0x80 then 0xffff_ff00 | a else a
  }

  lemma {:induction false} ByteFacts(a: KeyByte)
    ensures Unsigned(a) <= 0xff && (a >= 0x80 <==> Unsigned(a) >= 0x80) && (a == 0xff <==> Unsigned(a) == 0xff)
    ensures Signed(a) == Extended(Unsigned(a))
  {
  }

  lemma {:induction false} AgreeWords(a: Word, b: Word, c: Word, d: Word)
    requires a <= 0xff && b <= 0xff && c <= 0xff && d <= 0xff
    ensures Push(Push(Push(Push(0, a), b), c), d) == Push(Push(Push(Push(0, Extended(a)), Extended(b)), Extended(c)), Extended(d)) <==>
            (b >= 0x80 ==> a == 0xff) && (c >= 0x80 ==> a == 0xff && b == 0xff) && (d >= 0x80 ==> a == 0xff && b == 0xff && c == 0xff)
  {
  }

  function CorrectWord(key: Key, i: nat): Word {
    Correct(ByteAt(key, 4 * i), ByteAt(key, 4 * i + 1), ByteAt(key, 4 * i + 2), ByteAt(key, 4 * i + 3))
  }

  function BuggyWord(key: Key, i: nat): Word {
    Buggy(ByteAt(key, 4 * i), ByteAt(key, 4 * i + 1), ByteAt(key, 4 * i + 2), ByteAt(key, 4 * i + 3))
  }

  /** Some byte of word `i` but the first is negative. */
  predicate Extends(key: Key, i: nat) {
    ByteAt(key, 4 * i + 1) >= 0x80 || ByteAt(key, 4 * i + 2) >= 0x80 || ByteAt(key, 4 * i + 3) >= 0x80
  }

  predicate AgreeUpTo(key: Key, n: nat) {
    forall i | 0 <= i < n :: CorrectWord(key, i) == BuggyWord(key, i)
  }

  predicate ExtendsUpTo(key: Key, n: nat) {
    exists i | 0 <= i < n :: Extends(key, i)
  }

  /** When the safety measure acts: a sign extension happened, yet the expansions are the same. */
  predicate Collides(key: Key) {
    AgreeUpTo(key, 18) && ExtendsUpTo(key, 18)
  }

  function Expanded(key: Key, flags: Word, i: nat): Word {
    if Bug(flags) then BuggyWord(key, i) else CorrectWord(key, i)
  }

  // ----- the final bit tricks -----

  function Action(diff0: Word, sign0: Word, flags: Word): Word {
    var diff1 := diff0 | (diff0 >> 16);
    var diff2 := diff1 & 0xffff;
    var diff3 := diff2 + 0xffff;
    var sign1 := sign0 << 9;
    sign1 & (!diff3 & ((flags & 2) << 15))
  }

  lemma {:induction false} ActionIff(diff: Word, seen: bool, flags: Word)
    ensures Action(diff, Flag(seen), flags) == if Safety(flags) && diff == 0 && seen then 0x1_0000 else 0
  {
  }

  // ----- the code -----

  function CorrectPart(key: Key, k: nat, j: nat): Word {
    if j == 0 then 0 else Push(CorrectPart(key, k, j - 1), Unsigned(ByteAt(key, k + j - 1)))
  }

  function BuggyPart(key: Key, k: nat, j: nat): Word {
    if j == 0 then 0 else Push(BuggyPart(key, k, j - 1), Signed(ByteAt(key, k + j - 1)))
  }

  lemma {:induction false} WholeParts(key: Key, i: nat)
    ensures CorrectPart(key, 4 * i, 4) == CorrectWord(key, i) && BuggyPart(key, 4 * i, 4) == BuggyWord(key, i)
  {
    hide ByteAt, Unsigned, Signed, Push;
    var k := 4 * i;
    assert CorrectPart(key, k, 1) == Push(0, Unsigned(ByteAt(key, k)));
    assert CorrectPart(key, k, 2) == Push(CorrectPart(key, k, 1), Unsigned(ByteAt(key, k + 1)));
    assert CorrectPart(key, k, 3) == Push(CorrectPart(key, k, 2), Unsigned(ByteAt(key, k + 2)));
    assert BuggyPart(key, k, 1) == Push(0, Signed(ByteAt(key, k)));
    assert BuggyPart(key, k, 2) == Push(BuggyPart(key, k, 1), Signed(ByteAt(key, k + 1)));
    assert BuggyPart(key, k, 3) == Push(BuggyPart(key, k, 2), Signed(ByteAt(key, k + 2)));
  }

  function SignOf(sign: Word, tmp: Word): Word {
    sign | (tmp & 0x80)
  }

  function Flag(b: bool): Word {
    if b then 0x80 else 0
  }

  lemma {:induction false} SignBit(tmp: Word, b: KeyByte, seen: bool)
    ensures SignOf(Flag(seen), Push(tmp, Signed(b))) == Flag(seen || b >= 0x80)
  {
    hide Signed, Unsigned, SignOf, Push, Extended;
    ByteFacts(b);
    SignBitWord(tmp, Unsigned(b), seen);
  }

  lemma {:induction false} SignBitWord(tmp: Word, b: Word, seen: bool)
    requires b <= 0xff
    ensures SignOf(Flag(seen), Push(tmp, Extended(b))) == Flag(seen || b >= 0x80)
  {
  }

  predicate ExtendsPart(key: Key, k: nat, j: nat) {
    (j >= 2 && ByteAt(key, k + 1) >= 0x80) || (j >= 3 && ByteAt(key, k + 2) >= 0x80) || (j >= 4 && ByteAt(key, k + 3) >= 0x80)
  }

  ghost predicate NulFree(key: Key) {
    forall i | 0 <= i < |key| :: key[i] != 0
  }

  /** The inner loop: the two forms of word `i`, with `ptr` the index of the next byte of the key. */
  method NextWord(key: Key, ptr0: nat, sign0: Word, ghost i: nat, ghost seen: bool)
    returns (ptr: nat, sign: Word, correct: Word, buggy: Word)
    requires NulFree(key) && ptr0 == (4 * i) % (|key| + 1) && sign0 == Flag(seen)
    ensures ptr == (4 * (i + 1)) % (|key| + 1)
    ensures sign == Flag(seen || Extends(key, i))
    ensures correct == CorrectWord(key, i) && buggy == BuggyWord(key, i)
  {
    hide ByteAt, Signed, Unsigned, CorrectWord, BuggyWord, Push, SignOf, Flag;
    ptr, sign, correct, buggy := ptr0, sign0, 0, 0;
    ghost var k := 4 * i;
    for j := 0 to 4
      invariant ptr == (k + j) % (|key| + 1) && ptr <= |key|
      invariant correct == CorrectPart(key, k, j) && buggy == BuggyPart(key, k, j)
      invariant sign == Flag(seen || ExtendsPart(key, k, j))
    {
      var b := if ptr == |key| then 0 else key[ptr];
      ByteHere(key, k + j, ptr);
      SignBit(buggy, b, seen || ExtendsPart(key, k, j));
      correct := Push(correct, Unsigned(b));
      buggy := Push(buggy, Signed(b));
      if j > 0 {
        sign := SignOf(sign, buggy);
      }
      NextByte(key, k + j);
      ptr := if b == 0 then 0 else ptr + 1;
    }
    WholeParts(key, i);
  }

  lemma {:induction false} ByteHere(key: Key, k: nat, ptr: nat)
    requires ptr == k % (|key| + 1) && ptr <= |key|
    ensures ByteAt(key, k) == if ptr == |key| then 0 else key[ptr]
  {
  }

  function Widen(diff: Word, a: Word, b: Word): Word {
    diff | (a ^ b)
  }

  lemma {:induction false} DiffGrows(diff: Word, a: Word, b: Word)
    ensures Widen(diff, a, b) == 0 <==> diff == 0 && a == b
  {
    if a == b {
      XorSame(a, diff);
    } else if Widen(diff, a, b) == 0 {
      OrZero(diff, a, b);
    }
  }

  lemma {:induction false} XorSame(a: Word, diff: Word)
    ensures diff | (a ^ a) == diff
  {
  }

  lemma {:induction false} OrZero(diff: Word, a: Word, b: Word)
    requires diff | (a ^ b) == 0
    ensures diff == 0 && a == b
  {
  }

  predicate Bug(flags: Word) {
    flags & 1 == 1
  }

  predicate Safety(flags: Word) {
    flags & 2 == 2
  }

  /** The schedule, for a NUL-free key of any length. */
  method SetKey(key: Key, init: seq<Word>, expanded: array<Word>, initial: array<Word>, flags: Word)
    requires |init| == 18 && expanded.Length == 18 && initial.Length == 18 && expanded != initial && NulFree(key)
    modifies expanded, initial
    ensures forall i | 0 <= i < 18 :: expanded[i] == Expanded(key, flags, i)
    ensures forall i | 1 <= i < 18 :: initial[i] == Xor(init[i], Expanded(key, flags, i))
    ensures initial[0] == Xor(Xor(init[0], Expanded(key, flags, 0)), if Safety(flags) && Collides(key) then 0x1_0000 else 0)
  {
    hide ByteAt, CorrectWord, BuggyWord, Extends, Action, Xor, Bug, Safety, Widen, Flag, NulFree;
    var ptr: nat := 0;
    var sign: Word, diff: Word := 0, 0;
    FlagOff();
    for i := 0 to 18
      invariant ptr == (4 * i) % (|key| + 1)
      invariant sign == Flag(ExtendsUpTo(key, i))
      invariant diff == 0 <==> AgreeUpTo(key, i)
      invariant forall k | 0 <= k < i :: expanded[k] == Expanded(key, flags, k)
      invariant forall k | 0 <= k < i :: initial[k] == Xor(init[k], Expanded(key, flags, k))
    {
      var correct, buggy;
      ptr, sign, correct, buggy := NextWord(key, ptr, sign, i, ExtendsUpTo(key, i));
      DiffGrows(diff, correct, buggy);
      diff := Widen(diff, correct, buggy);
      var tmp := if Bug(flags) then buggy else correct;
      expanded[i] := tmp;
      initial[i] := Xor(init[i], tmp);
    }
    ActionIff(diff, ExtendsUpTo(key, 18), flags);
    initial[0] := Xor(initial[0], Action(diff, sign, flags));
  }

  lemma {:induction false} FlagOff()
    ensures Flag(false) == 0
  {
  }

  // ----- whom the safety measure touches -----

  /** Only keys that hold the byte 0xff. */
  lemma {:induction false} CollisionNeedsFf(key: Key)
    requires Collides(key)
    ensures 0xff in key
  {
    hide ByteAt, Correct, Buggy;
    var i: nat :| i < 18 && Extends(key, i);
    assert CorrectWord(key, i) == BuggyWord(key, i);
    AgreeIff(ByteAt(key, 4 * i), ByteAt(key, 4 * i + 1), ByteAt(key, 4 * i + 2), ByteAt(key, 4 * i + 3));
    ByteIsOfKey(key, 4 * i);
  }

  lemma {:induction false} ByteIsOfKey(key: Key, k: nat)
    requires ByteAt(key, k) != 0
    ensures ByteAt(key, k) in key
  {
  }

  /** For a key of bytes below 0x80 all subtypes expand the same. */
  lemma {:induction false} PlainKeysAgree(key: Key, i: nat)
    requires forall j | 0 <= j < |key| :: key[j] < 0x80
    ensures CorrectWord(key, i) == BuggyWord(key, i) && !Collides(key)
  {
    hide Correct, Buggy;
    forall j | 0 <= j < 18 ensures !Extends(key, j) {
    }
    AgreeIff(ByteAt(key, 4 * i), ByteAt(key, 4 * i + 1), ByteAt(key, 4 * i + 2), ByteAt(key, 4 * i + 3));
  }
}
