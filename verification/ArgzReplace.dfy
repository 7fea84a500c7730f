/** `argz_replace`: two scans over the flat buffer that replace inside each string. */
module ArgzReplace {
  import opened Octets
  import opened Argz

  // ----- finding -----

  predicate OccursAt(s: Bytes, str: Bytes, i: nat) {
    i + |str| <= |s| && s[i..i + |str|] == str
  }

  /** The leftmost occurrence, or the length when there is none. */
  function Find(s: Bytes, str: Bytes): (n: nat)
    requires str != []
    ensures n <= |s| && (n < |s| <==> OccursAt(s, str, n))
  {
    if s == [] then 0 else if OccursAt(s, str, 0) then 0 else
      var n := Find(s[1..], str);
      assert n < |s[1..]| ==> s[1..][n..n + |str|] == s[1 + n..1 + n + |str|];
      1 + n
  }

  lemma {:induction false} FindLeftmost(s: Bytes, str: Bytes, i: nat)
    requires str != [] && i < Find(s, str)
    ensures !OccursAt(s, str, i)
    decreases s
  {
    if i > 0 {
      FindLeftmost(s[1..], str, i - 1);
      assert i + |str| <= |s| ==> s[1..][i - 1..i - 1 + |str|] == s[i..i + |str|];
    }
  }

  lemma {:induction false} FindUnique(s: Bytes, str: Bytes, n: nat)
    requires str != [] && n <= |s| && (n < |s| ==> OccursAt(s, str, n)) && forall i | 0 <= i < n :: !OccursAt(s, str, i)
    ensures Find(s, str) == n
  {
    hide OccursAt;
    var k := Find(s, str);
    if n < k {
      FindLeftmost(s, str, n);
    }
  }

  // ----- replacing -----

  function ReplaceAll(s: Bytes, str: Bytes, with: Bytes): Bytes
    requires str != []
    decreases |s|
  {
    var n := Find(s, str);
    if n == |s| then s else s[..n] + with + ReplaceAll(s[n + |str|..], str, with)
  }

  function Occurrences(s: Bytes, str: Bytes): nat
    requires str != []
    decreases |s|
  {
    var n := Find(s, str);
    if n == |s| then 0 else 1 + Occurrences(s[n + |str|..], str)
  }

  lemma {:induction false} ReplaceStep(s: Bytes, str: Bytes, with: Bytes)
    requires str != []
    ensures var n := Find(s, str);
            if n == |s| then ReplaceAll(s, str, with) == s && Occurrences(s, str) == 0
            else n + |str| <= |s| && ReplaceAll(s, str, with) == s[..n] + with + ReplaceAll(s[n + |str|..], str, with)
                 && Occurrences(s, str) == 1 + Occurrences(s[n + |str|..], str)
  {
    hide Find;
  }

  function ReplaceEach(l: seq<Bytes>, str: Bytes, with: Bytes): (r: seq<Bytes>)
    requires str != []
    ensures |r| == |l|
  {
    if l == [] then [] else [ReplaceAll(l[0], str, with)] + ReplaceEach(l[1..], str, with)
  }

  function Total(l: seq<Bytes>, str: Bytes): nat
    requires str != []
  {
    if l == [] then 0 else Occurrences(l[0], str) + Total(l[1..], str)
  }

  // ----- no occurrence crosses a NUL -----

  lemma {:induction false} OccursInFirst(a: Bytes, b: Bytes, str: Bytes)
    requires NulFree(str) && str != []
    ensures OccursAt(a + [0] + b, str, 0) <==> OccursAt(a, str, 0)
  {
    var s := a + [0] + b;
    assert |str| <= |a| ==> s[0..|str|] == a[0..|str|];
    assert |a| < |str| <= |s| ==> s[0..|str|][|a|] == s[|a|] == 0;
  }

  lemma {:induction false} FindInFirst(a: Bytes, b: Bytes, str: Bytes)
    requires NulFree(str) && str != []
    ensures Find(a + [0] + b, str) == if Find(a, str) < |a| then Find(a, str) else |a| + 1 + Find(b, str)
    decreases a
  {
    hide OccursAt;
    var s := a + [0] + b;
    OccursInFirst(a, b, str);
    if a == [] {
      assert s[1..] == b;
      NoneInEmpty(str);
    } else {
      assert s[1..] == a[1..] + [0] + b;
      FindInFirst(a[1..], b, str);
    }
  }

  lemma {:induction false} NoneInEmpty(str: Bytes)
    requires str != []
    ensures !OccursAt([], str, 0)
  {
  }

  lemma {:induction false} ReplaceConcat(a: Bytes, b: Bytes, str: Bytes, with: Bytes)
    requires NulFree(str) && str != []
    ensures ReplaceAll(a + [0] + b, str, with) == ReplaceAll(a, str, with) + [0] + ReplaceAll(b, str, with)
    ensures Occurrences(a + [0] + b, str) == Occurrences(a, str) + Occurrences(b, str)
    decreases |a|
  {
    hide Find, ReplaceAll, Occurrences;
    var s := a + [0] + b;
    FindInFirst(a, b, str);
    ReplaceStep(s, str, with);
    ReplaceStep(a, str, with);
    var n := Find(a, str);
    if n < |a| {
      var rest := a[n + |str|..];
      assert s[..n] == a[..n] && s[n + |str|..] == rest + [0] + b;
      ReplaceConcat(rest, b, str, with);
      Regroup(a[..n] + with, ReplaceAll(rest, str, with), ReplaceAll(b, str, with));
    } else {
      ReplaceBehind(a, b, str, with);
    }
  }

  lemma {:induction false} Regroup(x: Bytes, y: Bytes, z: Bytes)
    ensures x + (y + [0] + z) == (x + y) + [0] + z
  {
  }

  lemma {:induction false} ReplaceBehind(a: Bytes, b: Bytes, str: Bytes, with: Bytes)
    requires NulFree(str) && str != [] && Find(a, str) == |a|
    ensures ReplaceAll(a + [0] + b, str, with) == a + [0] + ReplaceAll(b, str, with)
    ensures Occurrences(a + [0] + b, str) == Occurrences(b, str)
  {
    hide Find, ReplaceAll, Occurrences;
    var s := a + [0] + b;
    FindInFirst(a, b, str);
    ReplaceStep(s, str, with);
    ReplaceStep(b, str, with);
    var m := Find(b, str);
    if m < |b| {
      var k := |a| + 1 + m;
      assert s[..k] == a + [0] + b[..m] && s[k + |str|..] == b[m + |str|..];
      var z := ReplaceAll(b[m + |str|..], str, with);
      assert (a + [0] + b[..m]) + with + z == a + [0] + (b[..m] + with + z);
    }
  }

  /** On a vector, replacing in the buffer is replacing in every string. */
  lemma {:induction false} ReplaceVector(l: seq<Bytes>, str: Bytes, with: Bytes)
    requires NulFree(str) && str != []
    ensures ReplaceAll(Vector(l), str, with) == Vector(ReplaceEach(l, str, with))
    ensures Occurrences(Vector(l), str) == Total(l, str)
    decreases l
  {
    hide Find;
    if l == [] {
      EmptyFind(str);
    } else {
      ReplaceConcat(l[0], Vector(l[1..]), str, with);
      ReplaceVector(l[1..], str, with);
      var r := ReplaceEach(l, str, with);
      assert r[1..] == ReplaceEach(l[1..], str, with);
    }
  }

  lemma {:induction false} EmptyFind(str: Bytes)
    requires str != []
    ensures Find([], str) == 0
  {
  }

  lemma {:induction false} ReplaceKeepsStrings(s: Bytes, str: Bytes, with: Bytes)
    requires NulFree(s) && NulFree(with) && str != []
    ensures NulFree(ReplaceAll(s, str, with))
    decreases |s|
  {
    hide Find;
    var n := Find(s, str);
    if n < |s| {
      ReplaceKeepsStrings(s[n + |str|..], str, with);
    }
  }

  /** So the new buffer holds the list with each string replaced, and as many strings as before. */
  lemma {:induction false} ReplacedList(l: seq<Bytes>, str: Bytes, with: Bytes)
    requires Strings(l) && NulFree(str) && str != [] && NulFree(with)
    ensures List(ReplaceAll(Vector(l), str, with)) == ReplaceEach(l, str, with)
    ensures |List(ReplaceAll(Vector(l), str, with))| == |l|
  {
    ReplaceVector(l, str, with);
    EachKeepsStrings(l, str, with);
    ListVector(ReplaceEach(l, str, with));
  }

  lemma {:induction false} EachKeepsStrings(l: seq<Bytes>, str: Bytes, with: Bytes)
    requires Strings(l) && str != [] && NulFree(with)
    ensures Strings(ReplaceEach(l, str, with))
    decreases l
  {
    if l != [] {
      ReplaceKeepsStrings(l[0], str, with);
      EachKeepsStrings(l[1..], str, with);
    }
  }

  // ----- when a scan ends -----

  /** Where the search stops: at the first NUL when the string to search for is empty. */
  function Seek(s: Bytes, str: Bytes): (n: nat)
    ensures n <= |s| && (n < |s| ==> OccursAt(s, str, n))
  {
    if str == [] then FirstNul(s) else Find(s, str)
  }

  /** What is left of the buffer after one turn of the loops in `argz_replace`. */
  function Turn(s: Bytes, str: Bytes): Bytes {
    var n := Seek(s, str);
    if n < |s| then s[n + |str|..] else []
  }

  /** What is left of it after `k` turns. */
  function Turns(s: Bytes, str: Bytes, k: nat): Bytes
    decreases k
  {
    if k == 0 then s else Turns(Turn(s, str), str, k - 1)
  }

  /** At a NUL, the empty string is found and neither the cursor nor the length moves. */
  lemma {:induction false} StuckAtNul(s: Bytes)
    requires s != [] && s[0] == 0
    ensures Seek(s, []) == 0 && Turn(s, []) == s
  {
    FirstNulUnique(s, 0);
  }

  lemma {:induction false} NulAhead(s: Bytes)
    requires 0 in s
    ensures 0 in Turn(s, [])
  {
    var n := FirstNul(s);
    assert s[..|s|] == s;
    assert s[n..][0] == 0;
  }

  lemma {:induction false} StuckForever(s: Bytes, k: nat)
    requires 0 in s
    ensures Turns(s, [], k) != []
    decreases k
  {
    hide Turn;
    if k > 0 {
      NulAhead(s);
      StuckForever(Turn(s, []), k - 1);
    }
  }

  lemma {:induction false} ScanEnds(s: Bytes, str: Bytes, k: nat)
    requires str != [] && |s| <= k
    ensures Turns(s, str, k) == []
    decreases k
  {
    hide Find;
    if k > 0 {
      ScanEnds(Turn(s, str), str, k - 1);
    }
  }

  /** The loops of `argz_replace` end if and only if the string to search for is not empty or the
      buffer has no NUL, which for a vector means that it is empty. */
  lemma {:induction false} ScanEndsIff(s: Bytes, str: Bytes)
    ensures (exists k: nat :: Turns(s, str, k) == []) <==> str != [] || 0 !in s
    ensures Terminated(s) ==> (0 !in s <==> s == [])
  {
    hide Turn, Turns;
    if str != [] {
      ScanEnds(s, str, |s|);
    } else if 0 in s {
      forall k: nat ensures Turns(s, str, k) != [] { StuckForever(s, k); }
    } else {
      NoNulEnds(s);
    }
  }

  lemma {:induction false} NoNulEnds(s: Bytes)
    requires 0 !in s
    ensures Turns(s, [], 1) == []
  {
    assert Turn(s, []) == [] by { FirstNulUnique(s, |s|); }
    assert Turns([], [], 0) == [];
  }

  // ----- the code -----

  /** A buffer that is empty or ends in a NUL. */
  ghost predicate Terminated(s: Bytes) {
    s == [] || s[|s| - 1] == 0
  }

  /** How far `str` agrees with the buffer from `at` on; the final NUL stops it in time. */
  method MatchLength(buf: array<Byte>, at: nat, str: Bytes) returns (m: nat)
    requires Terminated(buf[..]) && NulFree(str) && at < buf.Length
    ensures m <= |str| && at + m <= buf.Length && (m == |str| ==> at + m < buf.Length)
    ensures m == |str| <==> OccursAt(buf[..], str, at)
  {
    m := 0;
    while m < |str| && str[m] == buf[at + m]
      invariant m <= |str| && at + m < buf.Length && buf[at..at + m] == str[..m]
    {
      assert buf[..][buf.Length - 1] == buf[buf.Length - 1];
      m := m + 1;
    }
    assert str[..|str|] == str;
    assert m < |str| && at + |str| <= buf.Length ==> buf[..][at..at + |str|][m] == buf[at + m];
  }

  /** `_buf_findstr` on the rest of the buffer from `pos` on. */
  method FindStr(buf: array<Byte>, pos: nat, len: nat, str: Bytes) returns (found: bool, pos': nat, len': nat)
    requires Terminated(buf[..]) && NulFree(str) && pos + len == buf.Length
    ensures var n := Seek(buf[pos..], str);
            found == (n < len) && pos' == (if found then pos + n + |str| else buf.Length) && pos' + len' == buf.Length
    ensures buf[pos'..] == Turn(buf[pos..], str) && (found ==> len' > 0)
  {
    hide OccursAt, Seek, Terminated, NulFree;
    ghost var s := buf[pos..];
    for i := 0 to len
      invariant forall k | 0 <= k < i :: !OccursAt(s, str, k) || !StartsAt(s, str, k)
    {
      if (if str == [] then 0 else str[0]) == buf[pos + i] {
        var m := MatchLength(buf, pos + i, str);
        OccursBehind(buf[..], pos, str, i);
        if m == |str| {
          SeekUnique(s, str, i);
          return true, pos + i + m, len - i - m;
        }
      }
    }
    SeekUnique(s, str, len);
    return false, pos + len, 0;
  }

  /** The first character of a C string, its NUL if it is empty, is the one at `i`. */
  predicate StartsAt(s: Bytes, str: Bytes, i: nat) {
    i < |s| && (if str == [] then 0 else str[0]) == s[i]
  }

  lemma {:induction false} SeekUnique(s: Bytes, str: Bytes, n: nat)
    requires n <= |s| && (n < |s| ==> OccursAt(s, str, n) && StartsAt(s, str, n))
    requires forall i | 0 <= i < n :: !OccursAt(s, str, i) || !StartsAt(s, str, i)
    ensures Seek(s, str) == n
  {
    if str == [] {
      forall i | 0 <= i < n ensures s[i] != 0 { assert OccursAt(s, str, i); }
      FirstNulUnique(s, n);
    } else {
      forall i | 0 <= i < n ensures !OccursAt(s, str, i) {
        if s[i] != str[0] { FirstDiffers(s, str, i); }
      }
      FindUnique(s, str, n);
    }
  }

  lemma {:induction false} OccursBehind(v: Bytes, pos: nat, str: Bytes, i: nat)
    requires pos + i <= |v|
    ensures OccursAt(v[pos..], str, i) <==> OccursAt(v, str, pos + i)
  {
    assert i + |str| <= |v| - pos ==> v[pos..][i..i + |str|] == v[pos + i..pos + i + |str|];
  }

  lemma {:induction false} FirstDiffers(s: Bytes, str: Bytes, i: nat)
    requires str != [] && i < |s| && str[0] != s[i]
    ensures !OccursAt(s, str, i)
  {
    assert i + |str| <= |s| ==> s[i..i + |str|][0] == s[i];
  }

  /** The first scan: the number of occurrences and, modulo the word size, the new length. */
  method Measure(buf: array<Byte>, str: Bytes, withLen: nat, ghost with: Bytes) returns (count: nat, newLen: nat)
    requires Terminated(buf[..]) && NulFree(str) && str != [] && withLen == |with|
    ensures count == Occurrences(buf[..], str) && newLen == |ReplaceAll(buf[..], str, with)| % SIZE_MAX1
  {
    hide Terminated, NulFree, Find, ReplaceAll, Occurrences, Turn, OccursAt;
    var lenDiff := (withLen - |str|) % SIZE_MAX1;
    var pos: nat, len: nat := 0, buf.Length;
    count, newLen := 0, buf.Length % SIZE_MAX1;
    ghost var exact: int := buf.Length;
    assert buf[0..] == buf[..];
    EmptyOccurrences(str, with);
    while len > 0
      invariant pos + len == buf.Length && newLen == exact % SIZE_MAX1
      invariant count + Occurrences(buf[pos..], str) == Occurrences(buf[..], str)
      invariant exact - len + |ReplaceAll(buf[pos..], str, with)| == |ReplaceAll(buf[..], str, with)|
      decreases len
    {
      var found;
      ghost var s := buf[pos..];
      ghost var n := Find(s, str);
      found, pos, len := FindStr(buf, pos, len, str);
      ReplaceStep(s, str, with);
      if found {
        assert buf[pos..] == s[n + |str|..];
        count := count + 1;
        WrapSum(exact, withLen - |str|);
        newLen := (newLen + lenDiff) % SIZE_MAX1;
        exact := exact + (withLen - |str|);
      } else {
        assert buf[pos..] == [];
      }
    }
    assert buf[pos..] == [];
  }

  lemma {:induction false} EmptyOccurrences(str: Bytes, with: Bytes)
    requires str != []
    ensures Occurrences([], str) == 0 && ReplaceAll([], str, with) == []
  {
  }

  lemma {:induction false} WrapSum(a: int, b: int)
    ensures (a % SIZE_MAX1 + b % SIZE_MAX1) % SIZE_MAX1 == (a + b) % SIZE_MAX1
  {
  }

  /** The second scan, which writes the new buffer. */
  method Rewrite(buf: array<Byte>, str: Bytes, with: Bytes, newLen: nat) returns (out: array<Byte>)
    requires Terminated(buf[..]) && NulFree(str) && str != [] && newLen == |ReplaceAll(buf[..], str, with)|
    ensures fresh(out) && out[..] == ReplaceAll(buf[..], str, with)
  {
    hide Terminated, NulFree, Find, ReplaceAll, Occurrences, Turn, OccursAt;
    out := new Byte[newLen];
    ghost var all := ReplaceAll(buf[..], str, with);
    var pos: nat, len: nat, last: nat, iter: nat := 0, buf.Length, 0, 0;
    assert buf[0..] == buf[..];
    EmptyOccurrences(str, with);
    while len > 0
      invariant pos + len == buf.Length && last <= buf.Length && fresh(out) && out.Length == newLen
      invariant len > 0 ==> last == pos
      invariant len == 0 ==> ReplaceAll(buf[last..], str, with) == buf[last..]
      invariant iter + |ReplaceAll(buf[last..], str, with)| == newLen
      invariant out[..iter] + ReplaceAll(buf[last..], str, with) == all
      decreases len
    {
      ghost var s := buf[last..];
      ghost var n := Find(s, str);
      ReplaceStep(s, str, with);
      var found;
      found, pos, len := FindStr(buf, pos, len, str);
      if found {
        assert s[..n] == buf[last..pos - |str|] && s[n + |str|..] == buf[pos..];
        Append(out, iter, buf[last..pos - |str|], with, ReplaceAll(buf[pos..], str, with));
        iter := iter + (pos - last - |str|) + |with|;
        last := pos;
      }
    }
    CopyTo(out, iter, buf[last..]);
  }

  /** Two copies one behind the other. */
  method Append(out: array<Byte>, at: nat, a: Bytes, b: Bytes, ghost rest: Bytes)
    requires at + |a| + |b| <= out.Length
    modifies out
    ensures out[..at + |a| + |b|] == old(out[..at]) + a + b
    ensures out[..at + |a| + |b|] + rest == old(out[..at]) + (a + b + rest)
  {
    CopyTo(out, at, a);
    CopyTo(out, at + |a|, b);
    assert out[..at + |a| + |b|] == old(out[..at]) + a + b;
    assert (old(out[..at]) + a + b) + rest == old(out[..at]) + (a + b + rest);
  }

  /** The whole call, where its loops end; the source's own copying back into a reallocated buffer is the last step. */
  method Replace(argz: array<Byte>, str: Bytes, with: Bytes, ghost l: seq<Bytes>) returns (result: array<Byte>, len: nat, count: nat)
    requires argz[..] == Vector(l) && Strings(l) && NulFree(str) && NulFree(with)
    requires str != [] || l == []
    requires str != [] ==> |Vector(ReplaceEach(l, str, with))| < SIZE_MAX1
    ensures str != [] ==> result[..] == Vector(ReplaceEach(l, str, with)) && count == Total(l, str)
    ensures len == result.Length && (l == [] ==> result == argz && count == 0)
  {
    hide Vector, Find, ReplaceAll, Occurrences, Terminated;
    VectorTerminated(l);
    EmptyVectorIff(l);
    if argz.Length == 0 {
      // neither loop is entered
      return argz, 0, 0;
    }
    ReplaceVector(l, str, with);
    var newLen;
    count, newLen := Measure(argz, str, |with|, with);
    if count > 0 {
      SmallRemains(|ReplaceAll(argz[..], str, with)|);
      result := Rewrite(argz, str, with, newLen);
      len := newLen;
    } else {
      NothingFound(argz[..], str, with);
      result, len := argz, argz.Length;
    }
  }

  lemma {:induction false} EmptyVectorIff(l: seq<Bytes>)
    ensures Vector(l) == [] <==> l == []
  {
  }

  lemma {:induction false} SmallRemains(x: nat)
    requires x < SIZE_MAX1
    ensures x % SIZE_MAX1 == x
  {
  }

  lemma {:induction false} NothingFound(s: Bytes, str: Bytes, with: Bytes)
    requires str != [] && Occurrences(s, str) == 0
    ensures ReplaceAll(s, str, with) == s
  {
  }

  lemma {:induction false} VectorTerminated(l: seq<Bytes>)
    ensures Terminated(Vector(l))
  {
    if l != [] {
      VectorEnds(l);
    }
  }
}
