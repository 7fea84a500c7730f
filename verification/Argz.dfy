/** argz vectors: strings kept one after the other in a buffer, each with its NUL. */
module Argz {
  import opened Octets

  ghost predicate Strings(l: seq<Bytes>) {
    forall i | 0 <= i < |l| :: NulFree(l[i])
  }

  function Vector(l: seq<Bytes>): Bytes {
    if l == [] then [] else l[0] + [0] + Vector(l[1..])
  }

  lemma {:induction false} VectorSnoc(l: seq<Bytes>, s: Bytes)
    ensures Vector(l + [s]) == Vector(l) + s + [0]
    decreases l
  {
    if l == [] {
      assert [] + [s] == [s] && [s][1..] == [];
    } else {
      assert (l + [s])[1..] == l[1..] + [s];
      VectorSnoc(l[1..], s);
      var a, b := l[0] + [0], Vector(l[1..]);
      assert a + (b + s + [0]) == (a + b) + s + [0];
    }
  }

  lemma {:induction false} VectorConcat(a: seq<Bytes>, b: seq<Bytes>)
    ensures Vector(a + b) == Vector(a) + Vector(b)
    decreases a
  {
    if a == [] {
      assert a + b == b;
    } else {
      assert (a + b)[1..] == a[1..] + b;
      VectorConcat(a[1..], b);
      assert (a[0] + [0]) + (Vector(a[1..]) + Vector(b)) == (a[0] + [0] + Vector(a[1..])) + Vector(b);
    }
  }

  lemma {:induction false} VectorEnds(l: seq<Bytes>)
    requires l != []
    ensures Vector(l) != [] && Vector(l)[|Vector(l)| - 1] == 0
  {
    var n := |l| - 1;
    assert l == l[..n] + [l[n]];
    VectorSnoc(l[..n], l[n]);
  }

  // ----- the strings of a buffer -----

  /** The list that a buffer holds; a last piece without a NUL counts as a string. */
  function List(v: Bytes): seq<Bytes> {
    if v == [] then [] else
      var n := FirstNul(v);
      if n == |v| then [v] else [v[..n]] + List(v[n + 1..])
  }

  function FirstNul(v: Bytes): (n: nat)
    ensures n <= |v| && NulFree(v[..n]) && (n < |v| ==> v[n] == 0)
  {
    if v == [] || v[0] == 0 then 0 else
      var n := FirstNul(v[1..]);
      assert v[..n + 1] == [v[0]] + v[1..][..n];
      n + 1
  }

  lemma {:induction false} FirstNulUnique(v: Bytes, n: nat)
    requires n <= |v| && NulFree(v[..n]) && (n < |v| ==> v[n] == 0)
    ensures FirstNul(v) == n
  {
    var k := FirstNul(v);
    assert forall i | 0 <= i < k :: v[i] == v[..k][i];
    assert forall i | 0 <= i < n :: v[i] == v[..n][i];
  }

  /** The buffer tells its list. */
  lemma {:induction false} ListVector(l: seq<Bytes>)
    requires Strings(l)
    ensures List(Vector(l)) == l
    decreases l
  {
    if l != [] {
      var v := Vector(l);
      var n := |l[0]|;
      assert v[..n] == l[0] && v[n] == 0 && v[n + 1..] == Vector(l[1..]);
      FirstNulUnique(v, n);
      ListVector(l[1..]);
    }
  }

  // ----- argz_create -----

  method CopyTo(dst: array<Byte>, at: nat, s: Bytes)
    requires at + |s| <= dst.Length
    modifies dst
    ensures dst[..] == old(dst[..at]) + s + old(dst[at + |s|..])
  {
    for i := 0 to |s|
      invariant dst[..] == old(dst[..at]) + s[..i] + old(dst[at + i..])
    {
      dst[at + i] := s[i];
    }
    assert s[..|s|] == s;
  }

  /** Measures, then copies; the empty buffer stands for the null pointer of an empty list. */
  method Create(argv: seq<Bytes>) returns (argz: array<Byte>, len: nat)
    ensures fresh(argz) && argz[..] == Vector(argv) && len == |Vector(argv)|
  {
    len := 0;
    var argc := 0;
    while argc < |argv|
      invariant 0 <= argc <= |argv| && len == |Vector(argv[..argc])|
    {
      assert argv[..argc + 1] == argv[..argc] + [argv[argc]];
      VectorSnoc(argv[..argc], argv[argc]);
      len := len + (|argv[argc]| + 1);
      argc := argc + 1;
    }
    assert argv[..argc] == argv;
    argz := new Byte[len];
    var iter := 0;
    for i := 0 to argc
      invariant iter == |Vector(argv[..i])| <= len && argz[..iter] == Vector(argv[..i])
    {
      assert argv[..i + 1] == argv[..i] + [argv[i]];
      VectorSnoc(argv[..i], argv[i]);
      PrefixFits(argv, i + 1);
      CopyTo(argz, iter, argv[i] + [0]);
      iter := iter + |argv[i]| + 1;
    }
    assert argz[..iter] == argz[..];
  }

  lemma {:induction false} PrefixFits(l: seq<Bytes>, i: nat)
    requires i <= |l|
    ensures |Vector(l[..i])| <= |Vector(l)| && Vector(l) == Vector(l[..i]) + Vector(l[i..])
  {
    assert l == l[..i] + l[i..];
    VectorConcat(l[..i], l[i..]);
  }

  // ----- argz_create_sep -----

  /** The fields of a string between separators, empty ones too. */
  function Split(s: Bytes, sep: Byte): (l: seq<Bytes>)
    ensures l != []
    decreases |s|
  {
    var n := FieldEnd(s, sep);
    if n == |s| then [s] else [s[..n]] + Split(s[n + 1..], sep)
  }

  function FieldEnd(s: Bytes, sep: Byte): (n: nat)
    ensures n <= |s| && sep !in s[..n] && (n < |s| ==> s[n] == sep)
  {
    if s == [] || s[0] == sep then 0 else
      var n := FieldEnd(s[1..], sep);
      assert s[..n + 1] == [s[0]] + s[1..][..n];
      n + 1
  }

  lemma {:induction false} FieldEndUnique(s: Bytes, sep: Byte, n: nat)
    requires n <= |s| && sep !in s[..n] && (n < |s| ==> s[n] == sep)
    ensures FieldEnd(s, sep) == n
  {
    var k := FieldEnd(s, sep);
    assert forall i | 0 <= i < k :: s[i] in s[..k];
    assert forall i | 0 <= i < n :: s[i] in s[..n];
  }

  /** Reads tokens with `strsep` and adds up their lengths; `len0` is the caller's value, which is not reset. */
  method MeasureFields(s: Bytes, sep: Byte, len0: nat) returns (len: nat, count: nat)
    ensures len == len0 + |Vector(Split(s, sep))| && count == |Split(s, sep)|
  {
    len, count := len0, 0;
    var running := s;
    var more := true;
    while more
      invariant more ==> len + |Vector(Split(running, sep))| == len0 + |Vector(Split(s, sep))|
      invariant more ==> count + |Split(running, sep)| == |Split(s, sep)|
      invariant !more ==> len == len0 + |Vector(Split(s, sep))| && count == |Split(s, sep)|
      decreases if more then |running| + 1 else 0
    {
      var n := FieldEnd(running, sep);
      len := len + (n + 1);
      count := count + 1;
      FieldStep(running, sep);
      if n == |running| {
        more := false;
      } else {
        running := running[n + 1..];
      }
    }
  }

  lemma {:induction false} FieldStep(s: Bytes, sep: Byte)
    ensures var n := FieldEnd(s, sep); var l := Split(s, sep);
            if n == |s| then l == [s] && Vector(l) == s + [0]
            else l == [s[..n]] + Split(s[n + 1..], sep) && Vector(l) == s[..n] + [0] + Vector(Split(s[n + 1..], sep))
  {
    var n := FieldEnd(s, sep);
    if n < |s| {
      assert ([s[..n]] + Split(s[n + 1..], sep))[1..] == Split(s[n + 1..], sep);
    }
  }

  /** The vector of the fields fills the buffer exactly when the caller's length started at zero. */
  method CreateSep(s: Bytes, sep: Byte, len0: nat) returns (argz: array<Byte>, len: nat)
    ensures fresh(argz) && len == argz.Length == len0 + |Vector(Split(s, sep))|
    ensures argz[..len - len0] == Vector(Split(s, sep))
  {
    hide Split, Vector, FieldEnd;
    var count;
    len, count := MeasureFields(s, sep, len0);
    argz := new Byte[len];
    ghost var all := Split(s, sep);
    var running := s;
    var iter := 0;
    VectorNotEmpty(all[..0]);
    for i := 0 to count
      invariant i < count ==> |running| <= |s| && all[i..] == Split(running, sep)
      invariant iter == |Vector(all[..i])| && iter <= len && argz[..iter] == Vector(all[..i])
    {
      var n := FieldEnd(running, sep);
      FieldStep(running, sep);
      assert all[i] == all[i..][0] == running[..n];
      assert all[..i + 1] == all[..i] + [all[i]];
      VectorSnoc(all[..i], all[i]);
      PrefixFits(all, i + 1);
      CopyTo(argz, iter, running[..n] + [0]);
      iter := iter + n + 1;
      if n < |running| {
        assert all[i..][1..] == all[i + 1..];
        running := running[n + 1..];
      } else {
        assert |all[i..]| == 1;
      }
    }
    assert all[..count] == all;
  }

  // ----- argz_stringify -----

  function Replaced(v: Bytes, sep: Byte): Bytes {
    seq(|v|, i requires 0 <= i < |v| => if v[i] == 0 then sep else v[i])
  }

  /** All NULs but the one at the end become separators. */
  function Joined(v: Bytes, sep: Byte): Bytes
    requires v != []
  {
    Replaced(v[..|v| - 1], sep) + v[|v| - 1..]
  }

  const SIZE_MAX1 := 0x1_0000_0000

  /** `argz_stringify` stops before the unsigned `argz_len - 1`, and `argz_extract` starts at the unsigned
      `argz_len - 2`: inside the buffer exactly when it has one and two characters. */
  lemma {:induction false} BoundsInside(len: nat)
    requires len < SIZE_MAX1
    ensures (len - 1) % SIZE_MAX1 <= len <==> len >= 1
    ensures (len - 2) % SIZE_MAX1 < len <==> len >= 2
  {
  }

  method Stringify(argz: array<Byte>, sep: Byte)
    requires argz.Length >= 1
    modifies argz
    ensures argz[..] == Joined(old(argz[..]), sep)
  {
    for i := 0 to argz.Length - 1
      invariant forall k | 0 <= k < i :: argz[k] == if old(argz[k]) == 0 then sep else old(argz[k])
      invariant forall k | i <= k < argz.Length :: argz[k] == old(argz[k])
    {
      if argz[i] == 0 {
        argz[i] := sep;
      }
    }
  }

  lemma {:induction false} ReplacedConcat(a: Bytes, b: Bytes, sep: Byte)
    ensures Replaced(a + b, sep) == Replaced(a, sep) + Replaced(b, sep)
  {
  }

  lemma {:induction false} ReplacedPlain(a: Bytes, sep: Byte)
    requires NulFree(a)
    ensures Replaced(a, sep) == a
  {
  }

  /** Joining the fields of a string gives the string, whatever the separator. */
  lemma {:induction false} JoinedSplit(s: Bytes, sep: Byte)
    requires NulFree(s)
    ensures Joined(Vector(Split(s, sep)), sep) == s + [0]
    decreases |s|
  {
    FieldStep(s, sep);
    var n := FieldEnd(s, sep);
    if n == |s| {
      assert (s + [0])[..|s|] == s;
      ReplacedPlain(s, sep);
    } else {
      var tail := s[n + 1..];
      JoinedSplit(tail, sep);
      JoinedStep(s[..n], Vector(Split(tail, sep)), sep);
      assert s == s[..n] + [sep] + tail;
      assert s[..n] + [sep] + (tail + [0]) == (s[..n] + [sep] + tail) + [0];
    }
  }

  lemma {:induction false} JoinedStep(a: Bytes, v: Bytes, sep: Byte)
    requires v != [] && NulFree(a)
    ensures Joined(a + [0] + v, sep) == a + [sep] + Joined(v, sep)
  {
    var u := a + [0] + v;
    assert u[..|u| - 1] == a + ([0] + v[..|v| - 1]) && u[|u| - 1..] == v[|v| - 1..];
    ReplacedConcat(a, [0] + v[..|v| - 1], sep);
    ReplacedConcat([0], v[..|v| - 1], sep);
    ReplacedPlain(a, sep);
    assert Replaced([0], sep) == [sep];
    assert a + ([sep] + Replaced(v[..|v| - 1], sep)) + v[|v| - 1..] == a + [sep] + (Replaced(v[..|v| - 1], sep) + v[|v| - 1..]);
  }

  /** The other way round, splitting what was joined gives the list exactly when no string holds the separator. */
  lemma {:induction false} SplitJoined(l: seq<Bytes>, sep: Byte)
    requires l != [] && Strings(l) && sep != 0
    ensures var text := Joined(Vector(l), sep);
            Split(text[..|text| - 1], sep) == l <==> forall i | 0 <= i < |l| :: sep !in l[i]
    decreases l
  {
    var text := Joined(Vector(l), sep);
    var s := text[..|text| - 1];
    SplitPieces(s, sep);
    if forall i | 0 <= i < |l| :: sep !in l[i] {
      SplitClean(l, sep);
    }
  }

  lemma {:induction false} SplitPieces(s: Bytes, sep: Byte)
    ensures forall i | 0 <= i < |Split(s, sep)| :: sep !in Split(s, sep)[i]
    decreases |s|
  {
    var n := FieldEnd(s, sep);
    if n < |s| {
      SplitPieces(s[n + 1..], sep);
    } else {
      assert s[..n] == s;
    }
  }

  lemma {:induction false} SplitClean(l: seq<Bytes>, sep: Byte)
    requires l != [] && Strings(l) && forall i | 0 <= i < |l| :: sep !in l[i]
    ensures var text := Joined(Vector(l), sep);
            Split(text[..|text| - 1], sep) == l
    decreases l
  {
    if |l| == 1 {
      assert l == [l[0]] && l[1..] == [];
      assert Vector(l) == l[0] + [0];
      assert (l[0] + [0])[..|l[0]|] == l[0];
      ReplacedPlain(l[0], sep);
      var s := Joined(Vector(l), sep)[..|l[0]|];
      assert s == l[0] && s[..|s|] == s;
      FieldEndUnique(s, sep, |s|);
    } else {
      var rest := Vector(l[1..]);
      VectorEnds(l[1..]);
      JoinedStep(l[0], rest, sep);
      SplitClean(l[1..], sep);
      var tail := Joined(rest, sep);
      var text := l[0] + [sep] + tail;
      var s := text[..|text| - 1];
      var n := |l[0]|;
      assert s[..n] == l[0] && s[n] == sep && s[n + 1..] == tail[..|tail| - 1];
      FieldEndUnique(s, sep, n);
    }
  }

  // ----- argz_count -----

  function Nuls(v: Bytes): nat {
    if v == [] then 0 else (if v[0] == 0 then 1 else 0) + Nuls(v[1..])
  }

  lemma {:induction false} NulsConcat(a: Bytes, b: Bytes)
    ensures Nuls(a + b) == Nuls(a) + Nuls(b)
    decreases a
  {
    if a == [] {
      assert a + b == b;
    } else {
      assert (a + b)[1..] == a[1..] + b;
      NulsConcat(a[1..], b);
    }
  }

  lemma {:induction false} NulsPlain(a: Bytes)
    requires NulFree(a)
    ensures Nuls(a) == 0
    decreases a
  {
    if a != [] {
      NulsPlain(a[1..]);
    }
  }

  /** A vector has as many NULs as strings. */
  lemma {:induction false} NulsVector(l: seq<Bytes>)
    requires Strings(l)
    ensures Nuls(Vector(l)) == |l|
    decreases l
  {
    if l != [] {
      NulsConcat(l[0] + [0], Vector(l[1..]));
      NulsConcat(l[0], [0]);
      NulsPlain(l[0]);
      NulsVector(l[1..]);
    }
  }

  method Count(argz: array<Byte>) returns (count: nat)
    ensures count == Nuls(argz[..])
  {
    count := 0;
    for i := 0 to argz.Length
      invariant count == Nuls(argz[..i])
    {
      assert argz[..i + 1] == argz[..i] + [argz[i]];
      NulsConcat(argz[..i], [argz[i]]);
      if argz[i] == 0 {
        count := count + 1;
      }
    }
    assert argz[..argz.Length] == argz[..];
  }

  // ----- argz_next -----

  datatype Entry = Null | At(offset: nat)

  /** Where string `k` starts. */
  function Offset(l: seq<Bytes>, k: nat): nat
    requires k <= |l|
  {
    |Vector(l[..k])|
  }

  /** What stands where: string `k`, with its NUL. */
  lemma {:induction false} AtOffset(l: seq<Bytes>, k: nat)
    requires k < |l| && Strings(l)
    ensures var v := Vector(l); var o := Offset(l, k);
            o + |l[k]| < |v| && v[o..o + |l[k]|] == l[k] && v[o + |l[k]|] == 0 && Offset(l, k + 1) == o + |l[k]| + 1
  {
    var v := Vector(l);
    PrefixFits(l, k);
    var o := Offset(l, k);
    assert v[o..] == Vector(l[k..]) == l[k] + [0] + Vector(l[k..][1..]);
    assert v[o..o + |l[k]|] == v[o..][..|l[k]|];
    assert v[o + |l[k]|] == v[o..][|l[k]|];
    assert l[..k + 1] == l[..k] + [l[k]];
    VectorSnoc(l[..k], l[k]);
  }

  /** The NUL of the entry at an offset. */
  method EntryEnd(argz: array<Byte>, at: nat, ghost l: seq<Bytes>, ghost k: nat) returns (e: nat)
    requires argz[..] == Vector(l) && Strings(l) && k < |l| && at == Offset(l, k)
    ensures e == at + |l[k]|
  {
    hide Vector, Offset;
    AtOffset(l, k);
    ghost var w := argz[..][at..at + |l[k]|];
    assert forall m | at <= m < at + |l[k]| :: argz[m] == w[m - at];
    e := at;
    while argz[e] != 0
      invariant at <= e <= at + |l[k]|
      decreases at + |l[k]| - e
    {
      e := e + 1;
    }
  }

  /** Stepping from string `k` leads to string `k + 1`, and from the last to the end. */
  method Next(argz: array<Byte>, entry: Entry, ghost l: seq<Bytes>, ghost k: nat) returns (next: Entry)
    requires argz[..] == Vector(l) && Strings(l)
    requires entry.At? ==> k < |l| && entry.offset == Offset(l, k)
    ensures entry == Null ==> next == if l == [] then Null else At(Offset(l, 0))
    ensures entry.At? ==> next == if k + 1 == |l| then Null else At(Offset(l, k + 1))
  {
    hide Vector, Offset;
    if entry == Null {
      VectorNotEmpty(l);
      return if argz.Length > 0 then At(0) else Null;
    }
    AtOffset(l, k);
    var e := EntryEnd(argz, entry.offset, l, k);
    e := e + 1;
    OffsetsEnd(l, k + 1);
    return if e >= argz.Length then Null else At(e);
  }

  lemma {:induction false} VectorNotEmpty(l: seq<Bytes>)
    ensures |Vector(l)| == 0 <==> l == []
    ensures Offset(l, 0) == 0
  {
  }

  lemma {:induction false} OffsetsEnd(l: seq<Bytes>, k: nat)
    requires k <= |l|
    ensures Offset(l, k) <= |Vector(l)| && (Offset(l, k) == |Vector(l)| <==> k == |l|)
  {
    PrefixFits(l, k);
    VectorNotEmpty(l[k..]);
  }

  /** Reads all entries by stepping from the null entry on. */
  method Iterate(argz: array<Byte>, ghost l: seq<Bytes>) returns (read: seq<Bytes>)
    requires argz[..] == Vector(l) && Strings(l)
    ensures read == l
  {
    hide Vector, Offset;
    read := [];
    var entry := Next(argz, Null, l, 0);
    while entry != Null
      invariant |read| <= |l| && read == l[..|read|]
      invariant entry == if |read| == |l| then Null else At(Offset(l, |read|))
      decreases |l| - |read|
    {
      ghost var k := |read|;
      AtOffset(l, k);
      var s := StringAt(argz, entry.offset, l, k);
      entry := Next(argz, entry, l, k);
      read := read + [s];
    }
  }

  /** The C string at an offset. */
  method StringAt(argz: array<Byte>, at: nat, ghost l: seq<Bytes>, ghost k: nat) returns (s: Bytes)
    requires argz[..] == Vector(l) && Strings(l) && k < |l| && at == Offset(l, k)
    ensures s == l[k]
  {
    hide Vector, Offset;
    AtOffset(l, k);
    var e := EntryEnd(argz, at, l, k);
    s := argz[at..e];
  }

  // ----- argz_extract -----

  /** Fills `argv` from the back.  The loop stops before the first byte, so when the first string
      is empty the slot of the second one is left as it was; all others are right. */
  method Extract(argz: array<Byte>, argv: array<Entry>, ghost l: seq<Bytes>)
    requires argz[..] == Vector(l) && Strings(l) && argz.Length >= 2 && argv.Length >= |l| + 1
    modifies argv
    ensures forall k | 0 <= k < |l| && (k != 1 || l[0] != []) :: argv[k] == At(Offset(l, k))
    ensures |l| >= 2 && l[0] == [] ==> argv[1] == old(argv[1])
    ensures argv[|l|] == Null
    ensures forall k | |l| < k < argv.Length :: argv[k] == old(argv[k])
  {
    hide Vector, Offset, Nuls, Strings;
    var count := Count(argz);
    NulsVector(l);
    VectorNotEmpty(l);
    var i := argz.Length - 2;
    var j := 0;
    ghost var v := argz[..];
    TailNuls(l);
    while i > 0
      invariant 0 <= i <= argz.Length - 2 && 0 <= j < count && j == Nuls(v[i + 1..]) - 1
      invariant forall k | count - j <= k < count :: argv[k] == At(Offset(l, k))
      invariant forall k | 0 <= k < argv.Length && !(count - j <= k < count) :: argv[k] == old(argv[k])
    {
      NulsFrom(v, i);
      if argz[i] == 0 {
        NulStarts(l, i);
        j := j + 1;
        argv[count - j] := At(i + 1);
      }
      i := i - 1;
    }
    NulsFrom(v, 0);
    FirstByte(l);
    argv[0] := At(0);
    argv[count] := Null;
  }

  lemma {:induction false} NulsFrom(v: Bytes, i: nat)
    requires i < |v|
    ensures Nuls(v[i..]) == (if v[i] == 0 then 1 else 0) + Nuls(v[i + 1..]) && Nuls(v[i..]) <= Nuls(v)
    ensures i == 0 ==> Nuls(v[i..]) == Nuls(v)
  {
    assert v[i..][1..] == v[i + 1..];
    assert v == v[..i] + v[i..];
    NulsConcat(v[..i], v[i..]);
    assert i == 0 ==> v[i..] == v;
  }

  lemma {:induction false} TailNuls(l: seq<Bytes>)
    requires l != [] && Strings(l) && |Vector(l)| >= 2
    ensures Nuls(Vector(l)[|Vector(l)| - 1..]) == 1
  {
    VectorEnds(l);
    var v := Vector(l);
    assert v[|v| - 1..] == [0];
    assert [0][1..] == [];
  }

  lemma {:induction false} FirstByte(l: seq<Bytes>)
    requires l != [] && Strings(l)
    ensures Vector(l) != [] && (Vector(l)[0] == 0 <==> l[0] == [])
  {
  }

  /** Behind a NUL that is not the last byte a string starts, and the NULs from there on count the strings. */
  lemma {:induction false} NulStarts(l: seq<Bytes>, i: nat)
    requires Strings(l) && i + 1 < |Vector(l)| && Vector(l)[i] == 0
    ensures var k := |l| - Nuls(Vector(l)[i + 1..]); 0 < k < |l| && Offset(l, k) == i + 1
    decreases l
  {
    var v := Vector(l);
    var n := |l[0]|;
    assert v[n] == 0 && v[n + 1..] == Vector(l[1..]);
    assert forall m | 0 <= m < n :: v[m] == l[0][m];
    assert i >= n;
    if i == n {
      NulsVector(l[1..]);
      assert l[..1][1..] == [] && Vector(l[..1]) == l[0] + [0];
    } else {
      NulStarts(l[1..], i - n - 1);
      assert v[i + 1..] == Vector(l[1..])[i - n..];
      var k := |l[1..]| - Nuls(v[i + 1..]);
      assert l[..k + 1][0] == l[0] && l[..k + 1][1..] == l[1..][..k];
    }
  }

}
