/**
 * The rank loops of iconv: GB18030 four-byte codes and the EUC-KR extension number the code
 * points that a table does not hold.
 */
module IconvRank {

  /** A table of `rows` by `cols` code points. */
  datatype Grid = Grid(rows: nat, cols: nat, at: (nat, nat) -> nat)

  predicate Between(x: nat, lo: nat, hi: nat) {
    lo <= x <= hi
  }

  /** How many of the first `j` entries of row `i` lie from `lo` to `hi`. */
  function CountRow(g: Grid, i: nat, j: nat, lo: nat, hi: nat): nat {
    if j == 0 then 0 else CountRow(g, i, j - 1, lo, hi) + if Between(g.at(i, j - 1), lo, hi) then 1 else 0
  }

  /** The same for the first `i` rows. */
  function CountRows(g: Grid, i: nat, lo: nat, hi: nat): nat {
    if i == 0 then 0 else CountRows(g, i - 1, lo, hi) + CountRow(g, i - 1, g.cols, lo, hi)
  }

  function Count(g: Grid, lo: nat, hi: nat): nat {
    CountRows(g, g.rows, lo, hi)
  }

  lemma {:induction false} CountRowSplit(g: Grid, i: nat, j: nat, lo: nat, mid: nat, hi: nat)
    requires lo <= mid <= hi
    ensures CountRow(g, i, j, lo, hi) == CountRow(g, i, j, lo, mid) + CountRow(g, i, j, mid + 1, hi)
    decreases j
  {
    if j > 0 {
      CountRowSplit(g, i, j - 1, lo, mid, hi);
    }
  }

  lemma {:induction false} CountRowsSplit(g: Grid, i: nat, lo: nat, mid: nat, hi: nat)
    requires lo <= mid <= hi
    ensures CountRows(g, i, lo, hi) == CountRows(g, i, lo, mid) + CountRows(g, i, mid + 1, hi)
    decreases i
  {
    if i > 0 {
      CountRowsSplit(g, i - 1, lo, mid, hi);
      CountRowSplit(g, i - 1, g.cols, lo, mid, hi);
    }
  }

  ghost predicate Holds(g: Grid, x: nat) {
    exists i, j | 0 <= i < g.rows && 0 <= j < g.cols :: g.at(i, j) == x
  }

  lemma {:induction false} CountRowZero(g: Grid, i: nat, j: nat, lo: nat, hi: nat)
    ensures CountRow(g, i, j, lo, hi) == 0 <==> forall k | 0 <= k < j :: !Between(g.at(i, k), lo, hi)
    decreases j
  {
    if j > 0 {
      CountRowZero(g, i, j - 1, lo, hi);
    }
  }

  predicate RowFree(g: Grid, i: nat, lo: nat, hi: nat) {
    forall k | 0 <= k < g.cols :: !Between(g.at(i, k), lo, hi)
  }

  lemma {:induction false} CountRowsZero(g: Grid, i: nat, lo: nat, hi: nat)
    ensures CountRows(g, i, lo, hi) == 0 <==> forall k | 0 <= k < i :: RowFree(g, k, lo, hi)
    decreases i
  {
    if i > 0 {
      CountRowsZero(g, i - 1, lo, hi);
      CountRowZero(g, i - 1, g.cols, lo, hi);
      assert RowFree(g, i - 1, lo, hi) <==> CountRow(g, i - 1, g.cols, lo, hi) == 0;
    }
  }

  lemma {:induction false} CountZero(g: Grid, lo: nat, hi: nat)
    ensures Count(g, lo, hi) == 0 <==> forall x | lo <= x <= hi :: !Holds(g, x)
  {
    CountRowsZero(g, g.rows, lo, hi);
    if forall x | lo <= x <= hi :: !Holds(g, x) {
      forall i, k | 0 <= i < g.rows && 0 <= k < g.cols ensures !Between(g.at(i, k), lo, hi) {
        if Between(g.at(i, k), lo, hi) {
          assert Holds(g, g.at(i, k));
        }
      }
    }
    if Count(g, lo, hi) == 0 {
      forall i, k | 0 <= i < g.rows && 0 <= k < g.cols ensures !Between(g.at(i, k), lo, hi) {
        assert RowFree(g, i, lo, hi);
      }
    }
  }

  // ----- the loop -----

  /** No entry is larger. */
  function Largest(g: Grid): nat {
    LargestRows(g, g.rows)
  }

  function LargestRow(g: Grid, i: nat, j: nat): (m: nat)
    ensures forall k | 0 <= k < j :: g.at(i, k) <= m
  {
    if j == 0 then 0 else
      var m := LargestRow(g, i, j - 1);
      if g.at(i, j - 1) > m then g.at(i, j - 1) else m
  }

  predicate RowWithin(g: Grid, i: nat, m: nat) {
    forall j | 0 <= j < g.cols :: g.at(i, j) <= m
  }

  function LargestRows(g: Grid, i: nat): (m: nat)
    ensures forall k | 0 <= k < i :: RowWithin(g, k, m)
  {
    if i == 0 then 0 else
      var m, n := LargestRows(g, i - 1), LargestRow(g, i - 1, g.cols);
      var max := if n > m then n else m;
      assert forall k | 0 <= k < i - 1 :: RowWithin(g, k, m) && RowWithin(g, k, max);
      assert RowWithin(g, i - 1, max);
      max
  }

  /** The entries from `d` on. */
  function CountFrom(g: Grid, d: nat): nat {
    if d > Largest(g) then 0 else Count(g, d, Largest(g))
  }

  lemma {:induction false} CountFromSplit(g: Grid, d: nat, c: nat)
    requires d <= c
    ensures CountFrom(g, d) == Count(g, d, c) + CountFrom(g, c + 1)
  {
    var m := Largest(g);
    if d > m {
      CountBeyond(g, d, c);
    } else if c < m {
      CountRowsSplit(g, g.rows, d, c, m);
    } else if c > m {
      CountRowsSplit(g, g.rows, d, m, c);
      CountBeyond(g, m + 1, c);
    }
  }

  lemma {:induction false} CountBeyond(g: Grid, d: nat, c: nat)
    requires d > Largest(g)
    ensures Count(g, d, c) == 0
  {
    CountRowsZero(g, g.rows, d, c);
    forall k | 0 <= k < g.rows ensures RowFree(g, k, d, c) {
      assert RowWithin(g, k, Largest(g));
    }
  }

  /** What the loop makes of `d` and `c`. */
  function Rank(g: Grid, d: nat, c: nat): nat
    decreases CountFrom(g, d), if d <= c then 1 else 0
  {
    if d > c then c
    else
      CountFromSplit(g, d, c);
      Rank(g, c + 1, c + Count(g, d, c))
  }

  method CountLoop(g: Grid, d: nat, c: nat) returns (k: nat)
    ensures k == Count(g, d, c)
  {
    k := 0;
    for i := 0 to g.rows
      invariant k == CountRows(g, i, d, c)
    {
      for j := 0 to g.cols
        invariant k == CountRows(g, i, d, c) + CountRow(g, i, j, d, c)
      {
        if d <= g.at(i, j) <= c {
          k := k + 1;
        }
      }
    }
  }

  method RankLoop(g: Grid, start: nat, index: nat) returns (c: nat)
    ensures c == Rank(g, start, index)
  {
    var d: nat := start;
    c := index;
    while d <= c
      invariant Rank(g, d, c) == Rank(g, start, index)
      decreases CountFrom(g, d), if d <= c then 1 else 0
    {
      CountFromSplit(g, d, c);
      var k := CountLoop(g, d, c);
      d := c + 1;
      c := c + k;
    }
  }

  // ----- what it computes -----

  lemma {:induction false} RankInvariant(g: Grid, start: nat, index: nat, d: nat, c: nat)
    requires start < d && index <= c && start <= index && c == index + Count(g, start, d - 1)
    requires d <= c || (c == d - 1 && !Holds(g, c))
    ensures var r := Rank(g, d, c);
            r >= c && r == index + Count(g, start, r) && !Holds(g, r)
    decreases CountFrom(g, d), if d <= c then 1 else 0
  {
    hide Count, CountFrom, Holds;
    if d <= c {
      CountFromSplit(g, d, c);
      CountJoin(g, start, d, c);
      CountZero(g, d, c);
      RankInvariant(g, start, index, c + 1, c + Count(g, d, c));
    }
  }

  lemma {:induction false} CountJoin(g: Grid, start: nat, d: nat, c: nat)
    requires start < d <= c
    ensures Count(g, start, c) == Count(g, start, d - 1) + Count(g, d, c)
  {
    CountRowsSplit(g, g.rows, start, d - 1, c);
  }

  /** The loop ends on a code point that the table lacks and that has, from `start` on, exactly
      the table's entries up to it in front of the index. */
  lemma {:induction false} RankFinds(g: Grid, start: nat, index: nat)
    requires start <= index
    ensures var r := Rank(g, start, index);
            r >= index && r - Count(g, start, r) == index && !Holds(g, r)
  {
    hide Count, CountFrom, Holds;
    CountZero(g, start, index);
    CountFromSplit(g, start, index);
    RankInvariant(g, start, index, index + 1, index + Count(g, start, index));
  }

  /** No code point from `start` on stands in two places; smaller entries, such as the zeros for
      unassigned places, may repeat. */
  ghost predicate Distinct(g: Grid, start: nat) {
    forall i, j, i', j' | 0 <= i < g.rows && 0 <= j < g.cols && 0 <= i' < g.rows && 0 <= j' < g.cols
                          && g.at(i, j) == g.at(i', j') && g.at(i, j) >= start :: i == i' && j == j'
  }

  lemma {:induction false} CountOneRow(g: Grid, start: nat, i: nat, j: nat, x: nat)
    requires Distinct(g, start) && x >= start && i < g.rows && j <= g.cols
    ensures CountRow(g, i, j, x, x) <= 1
    ensures CountRow(g, i, j, x, x) == 1 ==> exists k | 0 <= k < j :: g.at(i, k) == x
    decreases j
  {
    if j > 0 {
      CountOneRow(g, start, i, j - 1, x);
    }
  }

  lemma {:induction false} CountOneRows(g: Grid, start: nat, i: nat, x: nat)
    requires Distinct(g, start) && x >= start && i <= g.rows
    ensures CountRows(g, i, x, x) <= 1
    ensures CountRows(g, i, x, x) == 1 ==> exists n, k | 0 <= n < i && 0 <= k < g.cols :: g.at(n, k) == x
    decreases i
  {
    if i > 0 {
      CountOneRows(g, start, i - 1, x);
      CountOneRow(g, start, i - 1, g.cols, x);
    }
  }

  /** With distinct entries, a step to the next code point passes at most one of them. */
  lemma {:induction false} CountNext(g: Grid, start: nat, u: nat)
    requires Distinct(g, start) && start <= u
    ensures Count(g, start, u + 1) == Count(g, start, u) + if Holds(g, u + 1) then 1 else 0
  {
    CountRowsSplit(g, g.rows, start, u, u + 1);
    CountOneRows(g, start, g.rows, u + 1);
    CountZero(g, u + 1, u + 1);
  }

  /** The index of a code point: how many unmapped ones stand in front of it, counted from `start`. */
  lemma {:induction false} IndexGrows(g: Grid, start: nat, u: nat, v: nat)
    requires Distinct(g, start) && start <= u <= v
    ensures u - Count(g, start, u) <= v - Count(g, start, v)
    ensures u < v && !Holds(g, v) ==> u - Count(g, start, u) < v - Count(g, start, v)
    decreases v
  {
    hide Count, Holds, Distinct;
    if u < v {
      IndexGrows(g, start, u, v - 1);
      CountNext(g, start, v - 1);
    }
  }

  /** Every unmapped code point is reached, from its index. */
  lemma {:induction false} RankReaches(g: Grid, start: nat, u: nat)
    requires Distinct(g, start) && start <= u && !Holds(g, u)
    ensures u - Count(g, start, u) >= start && Rank(g, start, u - Count(g, start, u)) == u
  {
    hide Count, Holds, Distinct, Rank;
    CountAtMost(g, start, u);
    var index := u - Count(g, start, u);
    RankFinds(g, start, index);
    var r := Rank(g, start, index);
    if r < u {
      IndexGrows(g, start, r, u);
    } else if u < r {
      IndexGrows(g, start, u, r);
    }
  }

  lemma {:induction false} CountAtMost(g: Grid, start: nat, u: nat)
    requires Distinct(g, start) && start <= u && !Holds(g, u)
    ensures Count(g, start, u) <= u - start
  {
    hide Count, Holds, Distinct;
    CountFirst(g, start);
    IndexGrows(g, start, start, u);
  }

  lemma {:induction false} CountFirst(g: Grid, start: nat)
    requires Distinct(g, start)
    ensures Count(g, start, start) == if Holds(g, start) then 1 else 0
  {
    CountOneRows(g, start, g.rows, start);
    CountZero(g, start, start);
  }

  /** So it is a strictly increasing bijection from the indices onto the unmapped code points. */
  lemma {:induction false} RankIncreases(g: Grid, start: nat, a: nat, b: nat)
    requires Distinct(g, start) && start <= a < b
    ensures Rank(g, start, a) < Rank(g, start, b)
  {
    hide Count, Holds, Distinct, Rank;
    RankFinds(g, start, a);
    RankFinds(g, start, b);
    var r, s := Rank(g, start, a), Rank(g, start, b);
    if s <= r {
      IndexGrows(g, start, s, r);
    }
  }
}
