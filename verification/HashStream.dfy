/**
 * The block-buffered hash contexts of MD5, SHA-256 and SHA-512: `update`, `pad` and `sum`
 * over an arbitrary compression function.  A context that was fed a message in pieces gives
 * the digest of the padded message, whatever the pieces.
 */
module HashStream {
  import opened Octets

  const TWO64 := 0x1_0000_0000_0000_0000

  /** `lenBytes` is the width of the length field; `little` its byte order. */
  datatype Alg<!S> = Alg(block: nat, lenBytes: nat, little: bool, init: S, compress: (S, Bytes) -> S, digest: S -> Bytes)

  /** MD5 and SHA-256 work on 64-byte blocks with an 8-byte length, SHA-512 on 128 with 16. */
  predicate AlgOk<S>(alg: Alg<S>) {
    (alg.block == 64 && alg.lenBytes == 8) || (alg.block == 128 && alg.lenBytes == 16 && !alg.little)
  }

  // ----- what a digest is -----

  /** The state after the whole blocks at the front of `m`. */
  function Fold<S>(alg: Alg<S>, h: S, m: Bytes): S
    requires alg.block > 0
  {
    if |m| < alg.block then h else Fold(alg, alg.compress(h, m[..alg.block]), m[alg.block..])
  }

  /** The bytes behind them. */
  function Tail<S>(alg: Alg<S>, m: Bytes): Bytes
    requires alg.block > 0
  {
    if |m| < alg.block then m else Tail(alg, m[alg.block..])
  }

  function Zeros(n: nat): (z: Bytes)
    ensures |z| == n && forall i | 0 <= i < n :: z[i] == 0
  {
    seq(n, i => 0)
  }

  function LittleEndian(x: nat, n: nat): (b: Bytes)
    ensures |b| == n
  {
    if n == 0 then [] else [x % 256] + LittleEndian(x / 256, n - 1)
  }

  function BigEndian(x: nat, n: nat): (b: Bytes)
    ensures |b| == n
  {
    if n == 0 then [] else BigEndian(x / 256, n - 1) + [x % 256]
  }

  /** The number of bits of a message of `n` bytes, modulo 2^64, in the alg's length field. */
  function LengthField<S>(alg: Alg<S>, n: nat): (b: Bytes)
    requires AlgOk(alg)
    ensures |b| == alg.lenBytes
  {
    var bits := 8 * n % TWO64;
    if alg.little then LittleEndian(bits, 8) else Zeros(alg.lenBytes - 8) + BigEndian(bits, 8)
  }

  function PadZeros<S>(alg: Alg<S>, n: nat): (z: nat)
    requires AlgOk(alg)
  {
    var r := n % alg.block;
    if r + 1 + alg.lenBytes <= alg.block then alg.block - (r + 1 + alg.lenBytes)
    else 2 * alg.block - (r + 1 + alg.lenBytes)
  }

  /** Sections 3.1 and 3.2 of RFC 1321, and section 5.1 of FIPS 180-3 for messages below 2^64 bits: in
      the 16-byte length field of SHA-512 the code fills in only the lower eight. */
  function Padded<S>(alg: Alg<S>, m: Bytes): Bytes
    requires AlgOk(alg)
  {
    m + [0x80] + Zeros(PadZeros(alg, |m|)) + LengthField(alg, |m|)
  }

  function Digest<S>(alg: Alg<S>, m: Bytes): Bytes
    requires AlgOk(alg)
  {
    alg.digest(Fold(alg, alg.init, Padded(alg, m)))
  }

  /** The padding fills up a block, and no shorter one does. */
  lemma {:induction false} PaddedFillsBlocks<S>(alg: Alg<S>, m: Bytes, k: nat)
    requires AlgOk(alg)
    ensures |Padded(alg, m)| % alg.block == 0 && PadZeros(alg, |m|) < alg.block
    ensures (|m| + 1 + k + alg.lenBytes) % alg.block == 0 ==> PadZeros(alg, |m|) <= k
  {
    if alg.block == 64 { Pad64(|m|, k); } else { Pad128(|m|, k); }
  }

  lemma {:induction false} Pad64(n: nat, k: nat)
    ensures var r := n % 64; var z := if r + 9 <= 64 then 55 - r else 119 - r;
            0 <= z < 64 && (n + 1 + z + 8) % 64 == 0 && ((n + 1 + k + 8) % 64 == 0 ==> z <= k)
  {
  }

  lemma {:induction false} Pad128(n: nat, k: nat)
    ensures var r := n % 128; var z := if r + 17 <= 128 then 111 - r else 239 - r;
            0 <= z < 128 && (n + 1 + z + 16) % 128 == 0 && ((n + 1 + k + 16) % 128 == 0 ==> z <= k)
  {
  }

  // ----- folding in pieces -----

  lemma {:induction false} FoldConcat<S>(alg: Alg<S>, h: S, a: Bytes, b: Bytes)
    requires alg.block > 0
    ensures Fold(alg, h, a + b) == Fold(alg, Fold(alg, h, a), Tail(alg, a) + b)
    ensures Tail(alg, a + b) == Tail(alg, Tail(alg, a) + b)
    decreases |a|
  {
    if |a| >= alg.block {
      var n := alg.block;
      assert (a + b)[..n] == a[..n];
      assert (a + b)[n..] == a[n..] + b;
      FoldConcat(alg, alg.compress(h, a[..n]), a[n..], b);
    }
  }

  lemma {:induction false} TailLength<S>(alg: Alg<S>, m: Bytes)
    requires AlgOk(alg)
    ensures |Tail(alg, m)| == |m| % alg.block
    decreases |m|
  {
    if |m| >= alg.block {
      TailLength(alg, m[alg.block..]);
    }
  }

  lemma {:induction false} FoldBlock<S>(alg: Alg<S>, h: S, b: Bytes)
    requires alg.block > 0 && |b| == alg.block
    ensures Fold(alg, h, b) == alg.compress(h, b) && Tail(alg, b) == []
  {
    assert b[..alg.block] == b && b[alg.block..] == [];
  }

  /** Remainders by a block survive the wrap-around of the 64-bit length. */
  lemma {:induction false} WrapKeepsRemainder(n: nat, block: nat)
    requires block == 64 || block == 128
    ensures (n % TWO64) % block == n % block
  {
  }

  lemma {:induction false} WrapAdd(n: nat, k: nat)
    ensures (n % TWO64 + k) % TWO64 == (n + k) % TWO64
  {
  }

  // ----- the context -----

  /** A context that has taken in the message `msg`. */
  ghost predicate Holds<S>(alg: Alg<S>, msg: Bytes, len: nat, h: S, buf: Bytes) {
    && AlgOk(alg)
    && |buf| == alg.block
    && len == |msg| % TWO64
    && h == Fold(alg, alg.init, msg)
    && |Tail(alg, msg)| <= |buf| && buf[..|Tail(alg, msg)|] == Tail(alg, msg)
  }

  /** The loop of `update` over the whole blocks of `p`. */
  method FoldBlocks<S>(alg: Alg<S>, h: S, p: Bytes) returns (h': S, rest: Bytes)
    requires alg.block > 0
    ensures h' == Fold(alg, h, p) && rest == Tail(alg, p) && |rest| < alg.block
  {
    h', rest := h, p;
    while |rest| >= alg.block
      invariant Fold(alg, h, p) == Fold(alg, h', rest) && Tail(alg, p) == Tail(alg, rest)
      decreases |rest|
    {
      h' := alg.compress(h', rest[..alg.block]);
      rest := rest[alg.block..];
    }
  }

  // ----- padding -----

  /** The eight bytes that `pad` stores last. */
  function LastBytes<S>(alg: Alg<S>, n: nat): (b: Bytes)
    ensures |b| == 8
  {
    var bits := 8 * n % TWO64;
    if alg.little then LittleEndian(bits, 8) else BigEndian(bits, 8)
  }

  lemma {:induction false} WrapTimes8(n: nat)
    ensures 8 * (n % TWO64) % TWO64 == 8 * n % TWO64
  {
    var q := n / TWO64;
    assert 8 * n == 8 * (n % TWO64) + TWO64 * (8 * q);
  }

  /** What follows the message in its padded form. */
  function Trailer<S>(alg: Alg<S>, n: nat): Bytes
    requires AlgOk(alg)
  {
    [0x80] + Zeros(PadZeros(alg, n)) + LengthField(alg, n)
  }

  /** The tail of the message with its trailer is one block or two. */
  lemma {:induction false} TrailerBlocks<S>(alg: Alg<S>, tail: Bytes, n: nat)
    requires AlgOk(alg) && |tail| == n % alg.block
    ensures var r := |tail| + 1; var last := alg.block - 8;
            if r > alg.block - alg.lenBytes then
              tail + Trailer(alg, n)
              == (tail + [0x80] + Zeros(alg.block - r)) + (Zeros(last) + LastBytes(alg, n))
            else
              tail + Trailer(alg, n) == tail + [0x80] + Zeros(last - r) + LastBytes(alg, n)
  {
    assert Zeros(alg.lenBytes - 8) + LastBytes(alg, n) == LengthField(alg, n);
  }

  lemma {:induction false} FoldPadded<S>(alg: Alg<S>, m: Bytes)
    requires AlgOk(alg)
    ensures Fold(alg, alg.init, Padded(alg, m))
         == Fold(alg, Fold(alg, alg.init, m), Tail(alg, m) + Trailer(alg, |m|))
  {
    hide Fold, Tail, Trailer, Padded, AlgOk;
    PaddedIsTrailed(alg, m);
    FoldConcat(alg, alg.init, m, Trailer(alg, |m|));
  }

  lemma {:induction false} PaddedIsTrailed<S>(alg: Alg<S>, m: Bytes)
    requires AlgOk(alg)
    ensures Padded(alg, m) == m + Trailer(alg, |m|) && alg.block > 0
  {
    hide Zeros, LengthField, PadZeros;
  }

  lemma {:induction false} FoldTwo<S>(alg: Alg<S>, h: S, a: Bytes, b: Bytes)
    requires alg.block > 0 && |a| == alg.block && |b| == alg.block
    ensures Fold(alg, h, a + b) == alg.compress(alg.compress(h, a), b)
  {
    FoldConcat(alg, h, a, b);
    FoldBlock(alg, h, a);
    FoldBlock(alg, alg.compress(h, a), b);
    assert [] + b == b;
  }

  /** The first `n` bytes of `md` repeated without end. */
  function Cycled(md: Bytes, n: nat): (r: Bytes)
    requires md != []
    ensures |r| == n
  {
    if n <= |md| then md[..n] else md + Cycled(md, n - |md|)
  }

  lemma {:induction false} CycledAt(md: Bytes, n: nat, i: nat)
    requires md != [] && i < n
    ensures Cycled(md, n)[i] == md[i % |md|]
    decreases n
  {
    if n <= |md| || i < |md| {
      SmallRemainder(i, |md|);
    } else {
      CycledAt(md, n - |md|, i - |md|);
      RemainderMinus(i, |md|);
    }
  }

  lemma {:induction false} SmallRemainder(i: nat, k: nat)
    requires i < k
    ensures i % k == i
  {
  }

  lemma {:induction false} RemainderMinus(i: nat, k: nat)
    requires 0 < k <= i
    ensures i % k == (i - k) % k
  {
    var q := (i - k) / k;
    var r := (i - k) % k;
    assert i - k == q * k + r;
    assert i == (q + 1) * k + r;
    UniqueRemainder(i, k, q + 1, r);
  }

  lemma {:induction false} MulAtLeast(d: nat, k: nat)
    requires d >= 1
    ensures d * k >= k
  {
    assert d * k == (d - 1) * k + k;
  }

  lemma {:induction false} Apart(q: nat, r: nat, q': nat, r': nat, k: nat)
    requires q < q' && r < k
    ensures q * k + r < q' * k + r'
  {
    MulAtLeast(q' - q, k);
    assert q' * k == q * k + (q' - q) * k;
  }

  lemma {:induction false} UniqueRemainder(i: nat, k: nat, q: nat, r: nat)
    requires k > 0 && r < k && i == q * k + r
    ensures i % k == r
  {
    var q', r' := i / k, i % k;
    assert i == q' * k + r';
    if q' < q {
      Apart(q', r', q, r, k);
    } else if q < q' {
      Apart(q, r, q', r', k);
    }
  }

  class Context<S> {
    const alg: Alg<S>
    var len: nat
    var h: S
    const buf: array<Byte>

    ghost predicate Has(msg: Bytes)
      reads this, buf
    {
      Holds(alg, msg, len, h, buf[..])
    }

    constructor (alg: Alg<S>)
      requires AlgOk(alg)
      ensures this.alg == alg && Has([]) && fresh(buf)
    {
      this.alg := alg;
      len, h := 0, alg.init;
      buf := new Byte[alg.block];
    }

    /** `md5_init` and its sisters; the buffer keeps its old bytes. */
    method Init()
      requires AlgOk(alg) && buf.Length == alg.block
      modifies this`len, this`h
      ensures Has([])
    {
      len, h := 0, alg.init;
    }

    method Copy(at: nat, m: Bytes)
      requires at + |m| <= buf.Length
      modifies buf
      ensures buf[..] == old(buf[..])[..at] + m + old(buf[..])[at + |m|..]
    {
      forall i | 0 <= i < |m| {
        buf[at + i] := m[i];
      }
    }

    /** `update`: the message grows by `m`. */
    method Update(m: Bytes, ghost msg: Bytes)
      requires Has(msg)
      modifies this`len, this`h, buf
      ensures Has(msg + m)
    {
      TailLength(alg, msg);
      WrapKeepsRemainder(|msg|, alg.block);
      var r := len % alg.block;
      FoldConcat(alg, alg.init, msg, m);
      WrapAdd(|msg|, |m|);
      len := (len + |m|) % TWO64;
      var p := m;
      ghost var h0, tail := h, Tail(alg, msg);
      if r != 0 {
        if |m| < alg.block - r {
          Copy(r, m);
          assert buf[..r + |m|] == tail + m;
          return;
        }
        var n := alg.block - r;
        Copy(r, p[..n]);
        p := p[n..];
        assert buf[..] == tail + m[..n];
        assert tail + m == (tail + m[..n]) + p;
        FoldBlock(alg, h, buf[..]);
        FoldConcat(alg, h, buf[..], p);
        h := alg.compress(h, buf[..]);
        assert [] + p == p;
      } else {
        assert tail + m == m;
      }
      h, p := FoldBlocks(alg, h, p);
      Copy(0, p);
      assert buf[..|p|] == p;
    }

    /** The last block: zeros up to the length, and the length. */
    method PadLast(r: nat, ghost n: nat)
      requires AlgOk(alg) && buf.Length == alg.block && r <= alg.block - 8 && len == n % TWO64
      modifies this`len, this`h, buf
      ensures h == alg.compress(old(h), old(buf[..r]) + Zeros(alg.block - 8 - r) + LastBytes(alg, n))
    {
      WrapTimes8(n);
      Copy(r, Zeros(alg.block - 8 - r));
      len := 8 * len % TWO64;
      Copy(alg.block - 8, if alg.little then LittleEndian(len, 8) else BigEndian(len, 8));
      assert buf[..] == old(buf[..r]) + Zeros(alg.block - 8 - r) + LastBytes(alg, n);
      h := alg.compress(h, buf[..]);
    }

    /** `pad` and the reading of the state: the digest of everything taken in. */
    method Sum(ghost msg: Bytes) returns (md: Bytes)
      requires Has(msg)
      modifies this`len, this`h, buf
      ensures md == Digest(alg, msg) && buf.Length == alg.block
    {
      hide Fold, Tail, Trailer, LastBytes, Padded;
      TailLength(alg, msg);
      WrapKeepsRemainder(|msg|, alg.block);
      FoldPadded(alg, msg);
      TrailerBlocks(alg, Tail(alg, msg), |msg|);
      ghost var tail := Tail(alg, msg);
      var r := len % alg.block;
      buf[r] := 0x80;
      r := r + 1;
      assert buf[..r] == tail + [0x80];
      if r > alg.block - alg.lenBytes {
        Copy(r, Zeros(alg.block - r));
        assert buf[..] == tail + [0x80] + Zeros(alg.block - r);
        ghost var first, last := buf[..], Zeros(alg.block - 8) + LastBytes(alg, |msg|);
        FoldTwo(alg, h, first, last);
        h := alg.compress(h, buf[..]);
        assert buf[..0] + Zeros(alg.block - 8) + LastBytes(alg, |msg|) == last;
        PadLast(0, |msg|);
      } else {
        FoldBlock(alg, h, buf[..r] + Zeros(alg.block - 8 - r) + LastBytes(alg, |msg|));
        PadLast(r, |msg|);
      }
      md := alg.digest(h);
    }

    /** `hashmd`: the first `n` bytes of the digest `md` repeated without end. */
    method UpdateCycled(n: nat, md: Bytes, ghost msg: Bytes)
      requires Has(msg) && md != []
      modifies this`len, this`h, buf
      ensures Has(msg + Cycled(md, n))
    {
      hide Has;
      var i: nat := n;
      ghost var done := [];
      assert msg + done == msg;
      while i > |md|
        invariant Has(msg + done) && done + Cycled(md, i) == Cycled(md, n)
      {
        Update(md, msg + done);
        assert (msg + done) + md == msg + (done + md);
        assert (done + md) + Cycled(md, i - |md|) == done + (md + Cycled(md, i - |md|));
        done := done + md;
        i := i - |md|;
      }
      Update(md[..i], msg + done);
      assert (msg + done) + md[..i] == msg + (done + md[..i]);
    }
  }

  // ----- every way of cutting a message -----

  function Flat(pieces: seq<Bytes>): Bytes {
    if pieces == [] then [] else pieces[0] + Flat(pieces[1..])
  }

  /** The digest of a message fed in any pieces is the digest of the message. */
  method HashPieces<S>(alg: Alg<S>, pieces: seq<Bytes>) returns (md: Bytes)
    requires AlgOk(alg)
    ensures md == Digest(alg, Flat(pieces))
  {
    var ctx := new Context(alg);
    ghost var msg := [];
    for i := 0 to |pieces|
      invariant ctx.alg == alg && fresh(ctx) && fresh(ctx.buf) && ctx.Has(msg)
      invariant msg + Flat(pieces[i..]) == Flat(pieces)
    {
      ctx.Update(pieces[i], msg);
      assert pieces[i..][1..] == pieces[i + 1..];
      assert (msg + pieces[i]) + Flat(pieces[i + 1..]) == msg + (pieces[i] + Flat(pieces[i + 1..]));
      msg := msg + pieces[i];
    }
    assert msg == Flat(pieces);
    md := ctx.Sum(msg);
  }
}
