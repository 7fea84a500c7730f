/**
 * The library's `strtoul` in base 10.  Its test for overflow, "the new sum is smaller than the old
 * one", misses overflows; the rounds field of the SHA crypts is nevertheless read right.
 */
module Strtoul {
  import opened Common
  import opened Octets
  import opened CryptText
  import R = CryptR

  const ULONG_MAX := 0xffff_ffff

  ghost predicate Digits(s: Bytes) {
    forall i | 0 <= i < |s| :: R.IsDigit(s[i])
  }

  /** One turn of the loop; None when an overflow is noticed. */
  function Add(sum: nat, c: Byte): (r: Option<nat>)
    requires R.IsDigit(c)
  {
    var new_ := (10 * sum + (c as int - 48)) % (ULONG_MAX + 1);
    if new_ < sum then None else Some(new_)
  }

  /** What the loop makes of a run of digits. */
  function Sum(s: Bytes): Option<nat>
    requires Digits(s)
  {
    if s == [] then Some(0) else
      match Sum(s[..|s| - 1])
      case None => None
      case Some(x) => Add(x, s[|s| - 1])
  }

  lemma {:induction false} AddIs(sum: nat, c: Byte)
    requires R.IsDigit(c)
    ensures var exact := 10 * sum + (c as int - 48);
            && (exact <= ULONG_MAX ==> Add(sum, c) == Some(exact))
            && (exact > ULONG_MAX ==> sum >= ULONG_MAX / 10)
            && (Add(sum, c).Some? ==> Add(sum, c).value >= sum)
  {
  }

  /** A number that fits is read right; one that does not is noticed, or read as another large one. */
  lemma {:induction false} SumIs(s: Bytes)
    requires Digits(s)
    ensures R.Number(s) <= ULONG_MAX ==> Sum(s) == Some(R.Number(s))
    ensures R.Number(s) > ULONG_MAX && Sum(s).Some? ==> Sum(s).value >= ULONG_MAX / 10
  {
    hide Add;
    if s != [] {
      var p := s[..|s| - 1];
      SumIs(p);
      if Sum(p).Some? { AddIs(Sum(p).value, s[|s| - 1]); }
    }
  }

  /** The number that the first `k` digits make in 32 bits. */
  function Residue(s: Bytes, k: nat): nat
    requires k <= |s| && Digits(s)
  {
    R.Number(s[..k]) % (ULONG_MAX + 1)
  }

  lemma {:induction false} ResidueStep(s: Bytes, k: nat)
    requires k < |s| && Digits(s)
    ensures Add(Residue(s, k), s[k]) == if Residue(s, k + 1) < Residue(s, k) then None else Some(Residue(s, k + 1))
  {
    assert s[..k + 1][..k] == s[..k];
    WrapDigit(R.Number(s[..k]), s[k] as int - 48);
  }

  lemma {:induction false} WrapDigit(x: nat, d: int)
    ensures (10 * (x % 0x1_0000_0000) + d) % 0x1_0000_0000 == (10 * x + d) % 0x1_0000_0000
  {
    var q, r := x / 0x1_0000_0000, x % 0x1_0000_0000;
    assert x == q * 0x1_0000_0000 + r;
    WrapWhole(10 * r + d, 10 * q);
  }

  lemma {:induction false} WrapWhole(a: int, q: int)
    ensures (a + q * 0x1_0000_0000) % 0x1_0000_0000 == a % 0x1_0000_0000
  {
  }

  /** An overflow is noticed if and only if, digit by digit, the number in 32 bits becomes smaller
      somewhere; otherwise the number in 32 bits is the result. */
  lemma {:induction false} NoticedIff(s: Bytes)
    requires Digits(s)
    ensures Sum(s) == None <==> exists k | 0 <= k < |s| :: Residue(s, k + 1) < Residue(s, k)
    ensures Sum(s).Some? ==> Sum(s).value == Residue(s, |s|)
  {
    hide Add, R.Number;
    NoticedBy(s, |s|);
    assert s[..|s|] == s;
  }

  lemma {:induction false} NoticedBy(s: Bytes, n: nat)
    requires Digits(s) && n <= |s|
    ensures Digits(s[..n])
    ensures Sum(s[..n]) == None <==> exists k | 0 <= k < n :: Residue(s, k + 1) < Residue(s, k)
    ensures Sum(s[..n]).Some? ==> Sum(s[..n]).value == Residue(s, n)
  {
    hide Add, Residue;
    if n == 0 {
      NoDigits(s);
    } else {
      NoticedBy(s, n - 1);
      ResidueStep(s, n - 1);
      assert s[..n][..n - 1] == s[..n - 1];
    }
  }

  lemma {:induction false} NoDigits(s: Bytes)
    requires Digits(s)
    ensures Residue(s, 0) == 0
  {
  }

  /** An overflow that is not noticed: 10000000000 is read as 1410065408. */
  lemma {:induction false} OverflowMissed()
    ensures var s := R.Decimal(1_000_000_000) + [48];
            Digits(s) && R.Number(s) == 10_000_000_000 && Sum(s) == Some(1_410_065_408)
  {
    hide R.Decimal;
    var p := R.Decimal(1_000_000_000);
    R.NumberDecimal(1_000_000_000);
    SumIs(p);
    assert (p + [48])[..|p|] == p;
  }

  /** The call: the value, and how far the number reaches. */
  method Convert(t: Bytes) returns (u: nat, end: nat)
    ensures var digits := t[..R.DigitRun(t)];
            match Sum(digits)
            case None => u == ULONG_MAX && end == 0
            case Some(x) => u == x && end == |digits|
  {
    hide Add;
    var sum, i: nat := 0, 0;
    while i < |t| && R.IsDigit(t[i])
      invariant i <= R.DigitRun(t) && Sum(t[..i]) == Some(sum)
    {
      assert t[..i + 1][..i] == t[..i];
      var next := Add(sum, t[i]);
      if next == None {
        assert t[..R.DigitRun(t)][..i + 1] == t[..i + 1];
        Noticed(t[..R.DigitRun(t)], i + 1);
        return ULONG_MAX, 0;
      }
      sum, i := next.value, i + 1;
    }
    return sum, i;
  }

  lemma {:induction false} Noticed(s: Bytes, i: nat)
    requires Digits(s) && i <= |s| && Digits(s[..i]) && Sum(s[..i]) == None
    ensures Sum(s) == None
    decreases |s|
  {
    hide Add;
    if i < |s| {
      assert s[..|s| - 1][..i] == s[..i];
      Noticed(s[..|s| - 1], i);
    } else {
      assert s[..i] == s;
    }
  }

  /** The rounds field of a SHA setting. */
  method ReadRounds(s: Bytes) returns (field: Option<R.RoundsField>)
    ensures field == R.ParseRounds(s)
  {
    hide R.Number, R.Decimal, R.DigitRun, Sum;
    if !(R.ROUNDS <= s) {
      return Some(R.RoundsField(R.ROUNDS_DEFAULT, [], s));
    }
    var t := s[7..];
    if !R.IsDigit(At(t, 0)) {
      return None;
    }
    var u, end := Convert(t);
    SumIs(t[..R.DigitRun(t)]);
    if At(t, end) != DOLLAR {
      return None;
    }
    var r;
    if u < R.ROUNDS_MIN {
      r := R.ROUNDS_MIN;
    } else if u > R.ROUNDS_MAX {
      return None;
    } else {
      r := u;
    }
    return Some(R.RoundsField(r, R.RoundsText(r), t[end + 1..]));
  }
}
