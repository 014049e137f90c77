/** Packed storage of the strict upper triangle of a square matrix. */
module UpperTriangle {
  /** Number of entries above the diagonal of an n by n matrix. */
  function Ntri(n: nat): nat
    requires n > 0
  {
    n * (n - 1) / 2
  }

  /** Position of entry (i, j), i < j, row by row. */
  function UptriIdx(i: nat, j: nat, n: nat): int
    requires i < j < n
  {
    i * (2 * n - i - 1) / 2 + j - i - 1
  }

  /** Entries in the first i rows. */
  ghost function RowStart(i: nat, n: nat): int {
    if i == 0 then 0 else RowStart(i - 1, n) + n - i
  }

  lemma {:induction false} RowStartClosed(i: nat, n: nat)
    requires i <= n
    ensures 2 * RowStart(i, n) == i * (2 * n - i - 1)
  {
    if i > 0 {
      RowStartClosed(i - 1, n);
      assert i * (2 * n - i - 1) == (i - 1) * (2 * n - (i - 1) - 1) + 2 * (n - i);
    }
  }

  lemma IndexInRow(i: nat, j: nat, n: nat)
    requires i < j < n
    ensures UptriIdx(i, j, n) == RowStart(i, n) + (j - i - 1)
    ensures RowStart(i, n) <= UptriIdx(i, j, n) < RowStart(i + 1, n)
  {
    RowStartClosed(i, n);
  }

  lemma {:induction false} RowStartMono(i: nat, k: nat, n: nat)
    requires i <= k <= n
    ensures RowStart(i, n) <= RowStart(k, n)
    decreases k
  {
    if i < k { RowStartMono(i, k - 1, n); }
  }

  lemma AllRows(n: nat)
    requires n > 0
    ensures RowStart(n, n) == Ntri(n)
  {
    RowStartClosed(n, n);
    assert n * (2 * n - n - 1) == n * (n - 1);
  }

  ghost predicate Occupied(x: nat, n: nat) {
    exists i: nat, j: nat :: i < j < n && UptriIdx(i, j, n) == x
  }

  /** Every pair has its own position, and every position below n (n - 1) / 2 its pair. */
  lemma UptriIdxBijective(n: nat)
    requires n > 0
    ensures forall i: nat, j: nat :: i < j < n ==> 0 <= UptriIdx(i, j, n) < Ntri(n)
    ensures forall i: nat, j: nat, k: nat, l: nat :: i < j < n && k < l < n && UptriIdx(i, j, n) == UptriIdx(k, l, n)
              ==> i == k && j == l
    ensures forall x: nat :: x < Ntri(n) ==> Occupied(x, n)
  {
    AllRows(n);
    forall i: nat, j: nat | i < j < n ensures 0 <= UptriIdx(i, j, n) < Ntri(n) {
      IndexInRow(i, j, n);
      RowStartMono(0, i, n);
      RowStartMono(i + 1, n, n);
    }
    forall i: nat, j: nat, k: nat, l: nat | i < j < n && k < l < n && UptriIdx(i, j, n) == UptriIdx(k, l, n)
      ensures i == k && j == l
    {
      IndexInRow(i, j, n);
      IndexInRow(k, l, n);
      if i < k { RowStartMono(i + 1, k, n); }
      if k < i { RowStartMono(k + 1, i, n); }
    }
    forall x: nat | x < Ntri(n) ensures Occupied(x, n) {
      var i, j := PairAt(x, n, n);
    }
  }

  lemma {:induction false} PairAt(x: nat, n: nat, r: nat) returns (i: nat, j: nat)
    requires r <= n && x < RowStart(r, n)
    ensures i < j < n && UptriIdx(i, j, n) == x
    decreases r
  {
    if x < RowStart(r - 1, n) {
      i, j := PairAt(x, n, r - 1);
    } else {
      i, j := r - 1, r + (x - RowStart(r - 1, n));
      IndexInRow(i, j, n);
    }
  }

  // ---- Matrices ----

  /** m holds f(i, j) at the position of each pair. */
  ghost predicate Holds(m: seq<nat>, n: nat, f: (nat, nat) -> nat) {
    && n > 0 && |m| == Ntri(n)
    && forall i: nat, j: nat :: i < j < n ==> 0 <= UptriIdx(i, j, n) < |m| && m[UptriIdx(i, j, n)] == f(i, j)
  }

  /** Changing one entry changes the matrix at that pair only. */
  lemma HoldsUpdate(m: seq<nat>, n: nat, f: (nat, nat) -> nat, g: (nat, nat) -> nat, a: nat, b: nat)
    requires Holds(m, n, f) && a < b < n
    requires forall i: nat, j: nat :: i < j < n && (i != a || j != b) ==> f(i, j) == g(i, j)
    ensures 0 <= UptriIdx(a, b, n) < |m| && Holds(m[UptriIdx(a, b, n) := g(a, b)], n, g)
  {
    UptriIdxBijective(n);
  }
}
