/**
 * What md5crypt and the SHA crypts hash: the methods feed contexts piece by piece as the C
 * code does, and are proved to compute digests of plain concatenations.
 */
module CryptDigest {
  import opened Octets
  import opened HashStream
  import opened CryptText

  function Repeat(s: Bytes, n: nat): Bytes {
    if n == 0 then [] else s + Repeat(s, n - 1)
  }

  lemma {:induction false} RepeatSnoc(s: Bytes, n: nat)
    ensures Repeat(s, n) + s == Repeat(s, n + 1)
    decreases n
  {
    if n > 0 {
      RepeatSnoc(s, n - 1);
      assert s + (Repeat(s, n - 1) + s) == (s + Repeat(s, n - 1)) + s;
    }
  }

  /** One piece for every bit of `i`, the lowest first: `one` for a set bit, `zero` for a clear one. */
  function ByBits(i: nat, one: Bytes, zero: Bytes): Bytes {
    if i == 0 then [] else (if i % 2 == 1 then one else zero) + ByBits(i / 2, one, zero)
  }

  function When(cond: bool, s: Bytes): Bytes {
    if cond then s else []
  }

  /** `digest` always gives `size` bytes. */
  ghost predicate Sized<S(!new)>(alg: Alg<S>, size: nat) {
    forall h :: |alg.digest(h)| == size
  }

  ghost function Hash<S(!new)>(alg: Alg<S>, size: nat, m: Bytes): (md: Bytes)
    requires AlgOk(alg) && Sized(alg, size)
    ensures |md| == size
  {
    Digest(alg, m)
  }

  // ----- md5crypt -----

  ghost function Md5First<S(!new)>(alg: Alg<S>, key: Bytes, salt: Bytes): (md: Bytes)
    requires AlgOk(alg) && Sized(alg, 16)
    ensures |md| == 16
  {
    Hash(alg, 16, key + salt + key)
  }

  function FirstByte(key: Bytes): Bytes {
    if key == [] then [] else key[..1]
  }

  /** The second digest mixes in the first one over the key's length, and then for the bits
      of that length a zero byte or the key's first byte. */
  ghost function Md5Second<S(!new)>(alg: Alg<S>, key: Bytes, salt: Bytes): (md: Bytes)
    requires AlgOk(alg) && Sized(alg, 16)
    ensures |md| == 16
  {
    Hash(alg, 16, key + (MD5_PREFIX + salt) + Cycled(Md5First(alg, key, salt), |key|) + ByBits(|key|, [0], FirstByte(key)))
  }

  /** What round `i` hashes; the SHA crypts have `p` and `s` derived from the key and the salt. */
  function RoundMessage(md: Bytes, p: Bytes, s: Bytes, i: nat): Bytes {
    (if i % 2 == 1 then p else md) + When(i % 3 != 0, s) + When(i % 7 != 0, p) + (if i % 2 == 1 then md else p)
  }

  ghost function Rounds<S(!new)>(alg: Alg<S>, size: nat, md: Bytes, p: Bytes, s: Bytes, n: nat): (r: Bytes)
    requires AlgOk(alg) && Sized(alg, size) && |md| == size
    ensures |r| == size
  {
    if n == 0 then md
    else Hash(alg, size, RoundMessage(Rounds(alg, size, md, p, s, n - 1), p, s, n - 1))
  }

  ghost function Md5Crypt<S(!new)>(alg: Alg<S>, key: Bytes, salt: Bytes): (md: Bytes)
    requires AlgOk(alg) && Sized(alg, 16)
    ensures |md| == 16
  {
    Rounds(alg, 16, Md5Second(alg, key, salt), key, salt, 1000)
  }

  // ----- the SHA crypts -----

  ghost function ShaB<S(!new)>(alg: Alg<S>, size: nat, key: Bytes, salt: Bytes): (md: Bytes)
    requires AlgOk(alg) && Sized(alg, size)
    ensures |md| == size
  {
    Hash(alg, size, key + salt + key)
  }

  ghost function ShaA<S(!new)>(alg: Alg<S>, size: nat, key: Bytes, salt: Bytes): (md: Bytes)
    requires AlgOk(alg) && size >= 16 && Sized(alg, size)
    ensures |md| == size
  {
    var b := ShaB(alg, size, key, salt);
    Hash(alg, size, key + salt + Cycled(b, |key|) + ByBits(|key|, b, key))
  }

  ghost function ShaP<S(!new)>(alg: Alg<S>, size: nat, key: Bytes): (p: Bytes)
    requires AlgOk(alg) && size >= 16 && Sized(alg, size)
    ensures |p| == |key|
  {
    Cycled(Hash(alg, size, Repeat(key, |key|)), |key|)
  }

  function SaltTimes(md: Bytes): nat
    requires md != []
  {
    var first: int := md[0];
    16 + first
  }

  ghost function ShaS<S(!new)>(alg: Alg<S>, size: nat, key: Bytes, salt: Bytes): (s: Bytes)
    requires AlgOk(alg) && size >= 16 && Sized(alg, size) && |salt| <= 16
    ensures |s| == |salt|
  {
    Hash(alg, size, Repeat(salt, SaltTimes(ShaA(alg, size, key, salt))))[..|salt|]
  }

  ghost function ShaCrypt<S(!new)>(alg: Alg<S>, size: nat, key: Bytes, salt: Bytes, rounds: nat): (md: Bytes)
    requires AlgOk(alg) && size >= 16 && Sized(alg, size) && |salt| <= 16
    ensures |md| == size
  {
    Rounds(alg, size, ShaA(alg, size, key, salt), ShaP(alg, size, key), ShaS(alg, size, key, salt), rounds)
  }

  // ----- the code -----

  /** The loops over the bits of the key's length. */
  method UpdateByBits<S>(ctx: Context<S>, n: nat, one: Bytes, zero: Bytes, ghost msg: Bytes)
    requires ctx.Has(msg)
    modifies ctx, ctx.buf
    ensures ctx.Has(msg + ByBits(n, one, zero))
  {
    hide Context.Has;
    var i := n;
    ghost var done: Bytes := [];
    assert msg + done == msg;
    while i > 0
      invariant ctx.Has(msg + done) && done + ByBits(i, one, zero) == ByBits(n, one, zero)
    {
      var piece := if i % 2 == 1 then one else zero;
      ctx.Update(piece, msg + done);
      assert (msg + done) + piece == msg + (done + piece);
      assert (done + piece) + ByBits(i / 2, one, zero) == done + (piece + ByBits(i / 2, one, zero));
      done := done + piece;
      i := i / 2;
    }
    assert done == ByBits(n, one, zero);
  }

  method HashRepeated<S>(ctx: Context<S>, s: Bytes, n: nat) returns (md: Bytes)
    requires AlgOk(ctx.alg) && ctx.buf.Length == ctx.alg.block
    modifies ctx, ctx.buf
    ensures md == Digest(ctx.alg, Repeat(s, n))
  {
    hide Context.Has, Digest, AlgOk;
    ctx.Init();
    for i := 0 to n
      invariant ctx.Has(Repeat(s, i))
    {
      RepeatSnoc(s, i);
      ctx.Update(s, Repeat(s, i));
    }
    md := ctx.Sum(Repeat(s, n));
  }

  method HashThree<S>(ctx: Context<S>, a: Bytes, b: Bytes, c: Bytes) returns (md: Bytes)
    requires AlgOk(ctx.alg) && ctx.buf.Length == ctx.alg.block
    modifies ctx, ctx.buf
    ensures md == Digest(ctx.alg, a + b + c)
  {
    hide Context.Has, Digest, AlgOk;
    ctx.Init();
    assert [] + a == a;
    ctx.Update(a, []);
    ctx.Update(b, a);
    ctx.Update(c, a + b);
    md := ctx.Sum(a + b + c);
  }

  method Md5CryptHash<S(!new)>(alg: Alg<S>, key: Bytes, salt: Bytes) returns (md: Bytes)
    requires AlgOk(alg) && Sized(alg, 16)
    ensures md == Md5Crypt(alg, key, salt)
  {
    hide Context.Has, Digest, AlgOk, Sized, Cycled, RoundMessage, ByBits;
    var ctx := NewContext(alg);
    md := HashThree(ctx, key, salt, key);
    assert md == Md5First(alg, key, salt);

    ctx.Init();
    assert [] + key == key;
    ctx.Update(key, []);
    ctx.Update(MD5_PREFIX + salt, key);
    ghost var msg := key + (MD5_PREFIX + salt);
    ctx.UpdateCycled(|key|, md, msg);
    msg := msg + Cycled(md, |key|);
    UpdateByBits(ctx, |key|, [0], FirstByte(key), msg);
    md := ctx.Sum(msg + ByBits(|key|, [0], FirstByte(key)));
    assert md == Md5Second(alg, key, salt);

    for i := 0 to 1000
      invariant ctx.alg == alg && ctx.buf.Length == alg.block && fresh(ctx) && fresh(ctx.buf)
      invariant md == Rounds(alg, 16, Md5Second(alg, key, salt), key, salt, i)
    {
      md := Md5Round(ctx, md, key, salt, i);
    }
  }

  method NewContext<S>(alg: Alg<S>) returns (ctx: Context<S>)
    requires AlgOk(alg)
    ensures ctx.alg == alg && ctx.buf.Length == alg.block && fresh(ctx) && fresh(ctx.buf)
  {
    ctx := new Context(alg);
  }

  method Md5Round<S>(ctx: Context<S>, md: Bytes, key: Bytes, salt: Bytes, i: nat) returns (md': Bytes)
    requires AlgOk(ctx.alg) && ctx.buf.Length == ctx.alg.block
    modifies ctx, ctx.buf
    ensures md' == Digest(ctx.alg, RoundMessage(md, key, salt, i))
  {
    hide Context.Has, Digest, AlgOk;
    ctx.Init();
    ghost var msg: Bytes := [];
    var a := if i % 2 == 1 then key else md;
    assert [] + a == a;
    ctx.Update(a, []);
    msg := a;
    if i % 3 != 0 {
      ctx.Update(salt, msg);
    }
    msg := msg + When(i % 3 != 0, salt);
    assert a + [] == a;
    if i % 7 != 0 {
      ctx.Update(key, msg);
    } else {
      assert msg + [] == msg;
    }
    msg := msg + When(i % 7 != 0, key);
    var d := if i % 2 == 1 then md else key;
    ctx.Update(d, msg);
    md' := ctx.Sum(msg + d);
  }

  /** The SHA crypts never store `P`: each use of it repeats the digest `kmd` over the key's length. */
  method ShaRound<S>(ctx: Context<S>, md: Bytes, kmd: Bytes, klen: nat, s: Bytes, i: nat) returns (md': Bytes)
    requires AlgOk(ctx.alg) && ctx.buf.Length == ctx.alg.block && kmd != []
    modifies ctx, ctx.buf
    ensures md' == Digest(ctx.alg, RoundMessage(md, Cycled(kmd, klen), s, i))
  {
    hide Context.Has, Digest, AlgOk, Cycled;
    ghost var p := Cycled(kmd, klen);
    ctx.Init();
    ghost var msg: Bytes := if i % 2 == 1 then p else md;
    assert [] + msg == msg;
    if i % 2 == 1 {
      ctx.UpdateCycled(klen, kmd, []);
    } else {
      ctx.Update(md, []);
    }
    assert msg + [] == msg;
    if i % 3 != 0 {
      ctx.Update(s, msg);
    }
    msg := msg + When(i % 3 != 0, s);
    assert msg + [] == msg;
    if i % 7 != 0 {
      ctx.UpdateCycled(klen, kmd, msg);
    }
    msg := msg + When(i % 7 != 0, p);
    if i % 2 == 1 {
      ctx.Update(md, msg);
    } else {
      ctx.UpdateCycled(klen, kmd, msg);
    }
    md' := ctx.Sum(msg + if i % 2 == 1 then md else p);
  }

  method ShaFirst<S(!new)>(ctx: Context<S>, size: nat, key: Bytes, salt: Bytes) returns (md: Bytes)
    requires AlgOk(ctx.alg) && ctx.buf.Length == ctx.alg.block && size >= 16 && Sized(ctx.alg, size)
    modifies ctx, ctx.buf
    ensures md == ShaA(ctx.alg, size, key, salt)
  {
    hide Context.Has, Digest, AlgOk, Sized, Cycled, ByBits;
    md := HashThree(ctx, key, salt, key);
    assert md == ShaB(ctx.alg, size, key, salt);
    ctx.Init();
    assert [] + key == key;
    ctx.Update(key, []);
    ctx.Update(salt, key);
    ghost var msg := key + salt;
    ctx.UpdateCycled(|key|, md, msg);
    msg := msg + Cycled(md, |key|);
    UpdateByBits(ctx, |key|, md, key, msg);
    md := ctx.Sum(msg + ByBits(|key|, md, key));
  }

  method ShaCryptHash<S(!new)>(alg: Alg<S>, size: nat, key: Bytes, salt: Bytes, rounds: nat) returns (md: Bytes)
    requires AlgOk(alg) && size >= 16 && Sized(alg, size) && |salt| <= 16
    ensures md == ShaCrypt(alg, size, key, salt, rounds)
  {
    hide Context.Has, Digest, AlgOk, Sized, Cycled, RoundMessage, ByBits, Repeat, ShaA;
    var ctx := NewContext(alg);
    md := ShaFirst(ctx, size, key, salt);
    var kmd := HashRepeated(ctx, key, |key|);
    assert kmd == Hash(alg, size, Repeat(key, |key|));
    assert Cycled(kmd, |key|) == ShaP(alg, size, key);
    var smd := HashRepeated(ctx, salt, SaltTimes(md));
    assert smd == Hash(alg, size, Repeat(salt, SaltTimes(md)));
    var s := smd[..|salt|];
    assert s == ShaS(alg, size, key, salt);

    for i := 0 to rounds
      invariant ctx.alg == alg && ctx.buf.Length == alg.block && fresh(ctx) && fresh(ctx.buf)
      invariant md == Rounds(alg, size, ShaA(alg, size, key, salt), Cycled(kmd, |key|), s, i)
    {
      md := ShaRound(ctx, md, kmd, |key|, s, i);
    }
  }
}
