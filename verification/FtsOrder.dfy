/**
 * The order of a walk, told without recursion over the hierarchy: a reader of the visits
 * who keeps a stack of the open directories never meets a surprise.
 */
module FtsOrder {
  import opened Common
  import opened FtsSpec

  function IdsOf(open: seq<Entry>): seq<Id> {
    seq(|open|, i requires 0 <= i < |open| => open[i].id)
  }

  /** `e` is a root, or named by an entry of the innermost open directory. */
  predicate Below(e: Entry, open: seq<Entry>) {
    open != [] ==> e.path == Base(open[|open| - 1].path) + e.name
  }

  /** What one visit does to the stack of open directories; None when it has no place there.
      A directory is opened by its pre-order visit, below the innermost open one and unlike
      all of them; it is closed by its post-order (or unreadable) visit; any other node is
      visited inside the innermost open directory. */
  function Nest1(v: Visit, open: seq<Entry>): Option<seq<Entry>> {
    match v.e.info
    case D =>
      if v.level == |open| && Below(v.e, open) && v.e.id !in IdsOf(open) && v.shown == v.e.path
      then Some(open + [v.e]) else None
    case DP =>
      if open != [] && v.level == |open| - 1 && v.e == open[|open| - 1].(info := DP)
         && (v.shown == v.e.path || v.shown == ShownEmpty(v.e.path))
      then Some(open[..|open| - 1]) else None
    case DNR =>
      if open != [] && v.level == |open| - 1 && v.e.path == open[|open| - 1].path && v.shown == v.e.path
      then Some(open[..|open| - 1]) else None
    case _ =>
      if v.level == |open| && Below(v.e, open) && v.shown == v.e.path then Some(open) else None
  }

  function Nest(vs: seq<Visit>, open: seq<Entry>): Option<seq<Entry>> {
    if vs == [] then Some(open)
    else match Nest1(vs[0], open)
      case None => None
      case Some(o) => Nest(vs[1..], o)
  }

  lemma {:induction false} NestConcat(a: seq<Visit>, b: seq<Visit>, open: seq<Entry>)
    requires Nest(a, open).Some?
    ensures Nest(a + b, open) == Nest(b, Nest(a, open).value)
    decreases |a|
  {
    if a == [] {
      assert a + b == b;
    } else {
      assert (a + b)[1..] == a[1..] + b;
      NestConcat(a[1..], b, Nest1(a[0], open).value);
    }
  }

  lemma {:induction false} NestOne(v: Visit, open: seq<Entry>)
    ensures Nest([v], open) == Nest1(v, open)
  {
    assert [v][1..] == [];
  }

  predicate Placed(e: Entry, open: seq<Entry>) {
    Below(e, open) && !e.info.DP? && !e.info.DNR?
  }

  /** The visits of a node open and close directories in pairs, and leave the stack as it was. */
  lemma {:induction false} EntryNests(env: Env, e: Entry, anc: seq<Id>, level: nat, dev: int, open: seq<Entry>)
    requires EnvOk(env) && PathOk(e.path) && Fresh(env, e, anc)
    requires |open| == level && IdsOf(open) == anc && Placed(e, open)
    ensures Nest(WalkEntry(env, e, anc, level, dev), open) == Some(open)
    decreases Unused(env, anc), 2, 0
  {
    var v := Visit(e.path, e, level);
    NestOne(v, open);
    if e.info.D? {
      NestConcat([v], WalkRest(env, e, anc, level, dev), open);
      BelowNests(env, e, anc, level, dev, open);
    } else {
      assert WalkEntry(env, e, anc, level, dev) == [v];
    }
  }

  lemma {:induction false} BelowNests(env: Env, e: Entry, anc: seq<Id>, level: nat, dev: int, open: seq<Entry>)
    requires EnvOk(env) && PathOk(e.path) && Fresh(env, e, anc) && e.info.D?
    requires |open| == level && IdsOf(open) == anc
    ensures Nest(WalkBelow(env, e, anc, level, dev), open + [e]) == Some(open)
    decreases Unused(env, anc), 1, 0
  {
    var inner := open + [e];
    assert inner[..|inner| - 1] == open;
    NestOne(Post(e, level), inner);
    if env.skip(See(Visit(e.path, e, level))) || (env.xdev && e.id.dev != dev) {
    } else if env.list(e.path).None? {
      NestOne(Visit(e.path, e.(info := DNR, errno := env.dnrErrno), level), inner);
    } else {
      var kids := Children(env, e, anc + [e.id], env.list(e.path).value);
      if kids == [] {
        NestOne(Visit(ShownEmpty(e.path), e.(info := DP), level), inner);
      } else {
        ChildrenAreOk(env, e, anc + [e.id]);
        ChildPathsOk(env, kids, e.path, anc + [e.id]);
        UnusedShrinks(env, anc, e.id);
        assert IdsOf(inner) == anc + [e.id];
        ListNests(env, kids, anc + [e.id], level + 1, dev, inner, e.path);
        NestConcat(WalkList(env, kids, anc + [e.id], level + 1, dev), [Post(e, level)], inner);
      }
    }
  }

  lemma {:induction false} ListNests(env: Env, es: seq<Entry>, anc: seq<Id>, level: nat, dev: int, open: seq<Entry>, dir: string)
    requires EnvOk(env) && Walkable(env, es, anc) && ChildrenOk(env, es, dir, anc)
    requires |open| == level && IdsOf(open) == anc && open != [] && open[|open| - 1].path == dir
    ensures Nest(WalkList(env, es, anc, level, dev), open) == Some(open)
    decreases Unused(env, anc), 3, |es|
  {
    if es != [] {
      assert ChildOk(env, es[0], dir, anc);
      EntryNests(env, es[0], anc, level, dev, open);
      forall i | 0 <= i < |es[1..]| ensures ChildOk(env, es[1..][i], dir, anc) {
        assert ChildOk(env, es[i + 1], dir, anc);
      }
      ListNests(env, es[1..], anc, level, dev, open, dir);
      NestConcat(WalkEntry(env, es[0], anc, level, dev), WalkList(env, es[1..], anc, level, dev), open);
    }
  }

  /** The whole walk is properly nested, from no open directory to none. */
  lemma {:induction false} WalkNests(env: Env, es: seq<Entry>)
    requires EnvOk(env) && RootsOk(env, es)
    ensures Nest(WalkRoots(env, es), []) == Some([])
    decreases |es|
  {
    if es != [] {
      assert RootOk(env, es[0]);
      assert IdsOf([]) == [];
      var e := Loaded(env, es[0]);
      EntryNests(env, e, [], 0, e.id.dev, []);
      WalkNests(env, es[1..]);
      NestConcat(WalkEntry(env, e, [], 0, e.id.dev), WalkRoots(env, es[1..]), []);
    }
  }

  lemma {:induction false} PermuteConcat<T>(es: seq<T>, p: seq<nat>, q: seq<nat>)
    requires forall i | 0 <= i < |p| :: p[i] < |es|
    requires forall i | 0 <= i < |q| :: q[i] < |es|
    ensures forall i | 0 <= i < |p + q| :: (p + q)[i] < |es|
    ensures Permute(es, p + q) == Permute(es, p) + Permute(es, q)
  {
  }

  /** A permutation without its largest number. */
  lemma {:induction false} WithoutLargest(perm: seq<nat>, k: nat)
    requires k < |perm| && IsPermutation(perm, |perm|) && perm[k] == |perm| - 1
    ensures IsPermutation(perm[..k] + perm[k + 1..], |perm| - 1)
  {
    var rest := perm[..k] + perm[k + 1..];
    forall j | 0 <= j < |rest| ensures j in rest {
      assert j in perm;
      var i :| 0 <= i < |perm| && perm[i] == j;
      assert rest[if i < k then i else i - 1] == j;
    }
  }

  /** Where the last element of a sequence goes, and where the others go. */
  lemma {:induction false} PermuteSplit<T>(es: seq<T>, perm: seq<nat>, k: nat)
    requires es != [] && IsPermutation(perm, |es|) && k < |perm| && perm[k] == |es| - 1
    ensures var a, b := Permute(es, perm[..k]), Permute(es, perm[k + 1..]);
            IsPermutation(perm[..k] + perm[k + 1..], |es| - 1)
            && Permute(es, perm) == a + [es[|es| - 1]] + b && Permute(es[..|es| - 1], perm[..k] + perm[k + 1..]) == a + b
  {
    WithoutLargest(perm, k);
    var rest := perm[..k] + perm[k + 1..];
    assert Permute(es[..|es| - 1], rest) == Permute(es, rest);
    PermuteConcat(es, perm[..k], perm[k + 1..]);
  }

  lemma {:induction false} PutBack<T>(a: seq<T>, b: seq<T>, s: seq<T>)
    requires s != [] && multiset(a + b) == multiset(s[..|s| - 1])
    ensures multiset(a + [s[|s| - 1]] + b) == multiset(s)
  {
    var n := |s| - 1;
    assert s == s[..n] + [s[n]];
  }

  /** A permutation of a sequence has the same elements, each as often. */
  lemma {:induction false} PermutedMultiset<T>(es: seq<T>, perm: seq<nat>)
    requires IsPermutation(perm, |es|)
    ensures multiset(Permute(es, perm)) == multiset(es)
    decreases |es|
  {
    hide Permute, IsPermutation;
    PermutationFacts(perm, |es|);
    if es != [] {
      var n := |es| - 1;
      var k := PlaceOf(perm, n);
      var a, b := perm[..k], perm[k + 1..];
      PermuteSplit(es, perm, k);
      PermutedMultiset(es[..n], a + b);
      PutBack(Permute(es, a), Permute(es, b), es);
    }
  }

  lemma {:induction false} PlaceOf(perm: seq<nat>, j: nat) returns (k: nat)
    requires IsPermutation(perm, |perm|) && j < |perm|
    ensures k < |perm| && perm[k] == j
  {
    assert j in perm;
    k :| k < |perm| && perm[k] == j;
  }

  lemma {:induction false} PermutationFacts(perm: seq<nat>, n: nat)
    requires IsPermutation(perm, n)
    ensures |perm| == n && forall i | 0 <= i < n :: perm[i] < n && i in perm
  {
  }

  /** Siblings come in directory order, or in the order of the comparator: always the same
      entries, each as often as before, and then each pair of them ordered. */
  lemma {:induction false} ArrangeSorts(env: Env, es: seq<Entry>)
    requires EnvOk(env)
    ensures env.sorted ==> forall i, j | 0 <= i < j < |es| :: env.compar(Arrange(env, es)[i], Arrange(env, es)[j]) <= 0
    ensures !env.sorted ==> Arrange(env, es) == es
    ensures multiset(Arrange(env, es)) == multiset(es)
  {
    assert QsortAt(env, es);
    if env.sorted && |es| > 1 {
      PermutedMultiset(es, env.qsort(es));
    }
  }
}
