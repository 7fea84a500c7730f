/** `md5crypt`, `sha256crypt` and `sha512crypt` from the setting to the printed hash. */
module CryptSchemes {
  import opened Common
  import opened Octets
  import opened HashStream
  import opened CryptText
  import opened CryptDigest
  import opened Strtoul
  import R = CryptR

  /** The loops over the permutation tables. */
  method PrintGroups(md: Bytes, g: Table, n: nat) returns (s: Bytes)
    requires TableOk(g, n, |md|)
    ensures s == Groups(md, g, 0, n)
  {
    hide To64, Pack, Groups, TableOk;
    s := [];
    assert [] + Groups(md, g, 0, n) == Groups(md, g, 0, n);
    for i := 0 to n
      invariant s + Groups(md, g, i, n) == Groups(md, g, 0, n)
    {
      GroupsStep(md, g, i, n);
      var four := To64Loop(Pack(md[g(i).0], md[g(i).1], md[g(i).2]), 4);
      assert (s + four) + Groups(md, g, i + 1, n) == s + (four + Groups(md, g, i + 1, n));
      s := s + four;
    }
    NoGroups(md, g, n);
  }

  lemma {:induction false} NoGroups(md: Bytes, g: Table, n: nat)
    requires TableOk(g, n, |md|)
    ensures Groups(md, g, n, n) == []
  {
  }

  /** The hash of `md5crypt` is the setting's prefix and the printed digest. */
  method CryptMd5<S(!new)>(alg: Alg<S>, key: Bytes, setting: Bytes) returns (r: Option<Bytes>)
    requires AlgOk(alg) && Sized(alg, 16)
    ensures r == (if |key| > 30000 || R.ParseMd5(setting) == None then None else
                    var plan := R.ParseMd5(setting).value;
                    Some(plan.prefix + R.Print(plan.params, Md5Crypt(alg, key, plan.params.salt))))
  {
    hide Md5Crypt, AlgOk, Sized, Groups, To64, R.SaltLength, R.SafeSalt;
    if |key| > 30000 {
      return None;
    }
    if !(MD5_PREFIX <= setting) {
      return None;
    }
    var _, slen := R.ScanSalt(setting[3..], 8, false);
    var salt := setting[3..][..slen];
    var md := Md5CryptHash(alg, key, salt);
    var output := setting[..3 + slen] + [DOLLAR];
    Md5TableOk();
    var groups := PrintGroups(md, Md5Group, 5);
    var last := To64Loop(md[11], 2);
    assert groups + last == EncodeMd5(md);
    return Some(output + (groups + last));
  }

  method PrintSha256(md: Bytes) returns (s: Bytes)
    requires |md| == 32
    ensures s == EncodeSha256(md)
  {
    hide Groups, To64;
    Sha256TableOk();
    var groups := PrintGroups(md, Sha256Group, 10);
    var last := To64Loop(Pack(0, md[31], md[30]), 3);
    s := groups + last;
  }

  method PrintSha512(md: Bytes) returns (s: Bytes)
    requires |md| == 64
    ensures s == EncodeSha512(md)
  {
    hide Groups, To64;
    Sha512TableOk();
    var groups := PrintGroups(md, Sha512Group, 21);
    var last := To64Loop(md[63], 2);
    s := groups + last;
  }

  /** The hash of the SHA crypts is the setting's prefix and the printed digest. */
  method CryptSha<S(!new)>(alg: Alg<S>, wide: bool, key: Bytes, setting: Bytes) returns (r: Option<Bytes>)
    requires AlgOk(alg) && Sized(alg, if wide then 64 else 32)
    ensures r == (if |key| > 256 || R.ParseSha(wide, setting) == None then None else
                    var plan := R.ParseSha(wide, setting).value;
                    Some(plan.prefix + R.Print(plan.params,
                      ShaCrypt(alg, if wide then 64 else 32, key, plan.params.salt, plan.params.rounds))))
  {
    hide ShaCrypt, AlgOk, Sized, Groups, To64, R.SaltLength, R.SafeSalt, R.ParseRounds, EncodeSha256, EncodeSha512;
    if |key| > 256 {
      return None;
    }
    if !(R.ShaPrefix(wide) <= setting) {
      return None;
    }
    var read := ReadRounds(setting[3..]);
    if read == None {
      return None;
    }
    var field := read.value;
    var ok, slen := R.ScanSalt(field.rest, 16, true);
    if !ok {
      return None;
    }
    var salt := field.rest[..slen];
    var size := if wide then 64 else 32;
    var md := ShaCryptHash(alg, size, key, salt, field.rounds);
    var output := R.ShaPrefix(wide) + field.text + salt + [DOLLAR];
    var text;
    if wide {
      text := PrintSha512(md);
    } else {
      text := PrintSha256(md);
    }
    return Some(output + text);
  }

  // ----- the three as `crypt_r` calls them -----

  datatype Hashes<!A, !B, !C> = Hashes(md5: Alg<A>, sha256: Alg<B>, sha512: Alg<C>)

  ghost predicate HashesOk<A(!new), B(!new), C(!new)>(hs: Hashes<A, B, C>) {
    && AlgOk(hs.md5) && Sized(hs.md5, 16)
    && AlgOk(hs.sha256) && Sized(hs.sha256, 32)
    && AlgOk(hs.sha512) && Sized(hs.sha512, 64)
  }

  /** What the schemes hash, with these hash functions; `rest` stands for bcrypt and DES. */
  ghost function CoreOf<A(!new), B(!new), C(!new)>(hs: Hashes<A, B, C>, rest: R.Core): (core: R.Core)
    requires HashesOk(hs) && R.CoreOk(rest)
    ensures R.CoreOk(core)
  {
    (key: Bytes, p: R.Params) =>
      if p.Md5? then Md5Crypt(hs.md5, key, p.salt)
      else if !p.Sha? || |p.salt| > 16 then rest(key, p)
      else if p.wide then ShaCrypt(hs.sha512, 64, key, p.salt, p.rounds)
      else ShaCrypt(hs.sha256, 32, key, p.salt, p.rounds)
  }

  ghost predicate Hashed(scheme: R.Scheme) {
    scheme.Md5Scheme? || scheme.Sha256Scheme? || scheme.Sha512Scheme?
  }

  function AsOutcome(r: Option<Bytes>): R.Outcome {
    match r
    case None => R.Token([42])
    case Some(text) => R.Hash(text)
  }

  /** The code that streams the hash gives what `Crypt` says, and its result is a setting for itself. */
  method CryptHashed<A(!new), B(!new), C(!new)>(hs: Hashes<A, B, C>, key: Bytes, setting: Bytes, ghost rest: R.Core)
    returns (r: R.Outcome)
    requires HashesOk(hs) && R.CoreOk(rest) && Hashed(R.SchemeOf(setting))
    ensures r == R.Crypt(CoreOf(hs, rest), key, setting)
    ensures r.Hash? ==> R.Crypt(CoreOf(hs, rest), key, r.text) == r && R.SchemeOf(r.text) == R.SchemeOf(setting)
  {
    hide R.ParseSha, R.ParseMd5, R.Print, Md5Crypt, ShaCrypt, AlgOk, Sized;
    var text;
    match R.SchemeOf(setting) {
      case Md5Scheme => text := CryptMd5(hs.md5, key, setting);
      case Sha512Scheme => text := CryptSha(hs.sha512, true, key, setting);
      case _ => text := CryptSha(hs.sha256, false, key, setting);
    }
    r := AsOutcome(text);
    PlanIs(setting);
    if r.Hash? { R.Fixpoint(CoreOf(hs, rest), key, setting); }
  }

  lemma {:induction false} PlanIs(setting: Bytes)
    ensures R.ParseMd5(setting).Some? ==> R.ParseMd5(setting).value.params.Md5?
    ensures forall wide :: R.ParseSha(wide, setting).Some? ==>
              var p := R.ParseSha(wide, setting).value.params; p.Sha? && p.wide == wide && |p.salt| <= 16
  {
    hide R.ParseRounds, R.SafeSalt;
  }
}
