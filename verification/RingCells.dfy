/** Cells of a ring buffer: what a cell holds and which cell a position uses. */
module RingCells {
  import opened Core

  /** The data of a cell: moved-from, in the middle of an access, or a whole task. */
  datatype Slot = Vacant | Torn | Full(task: InferenceTask)

  /** The cell of a position: `t & Mask`. */
  function CellOf(p: nat, n: nat): (i: nat)
    requires n > 0
    ensures i < n
  {
    p % n
  }

  lemma CellsApart(p: nat, q: nat, n: nat)
    requires n > 0 && p < q < p + n
    ensures CellOf(p, n) != CellOf(q, n)
  {
    var a, b := p / n, q / n;
    assert p == a * n + p % n && q == b * n + q % n;
    assert (b - a) * n == b * n - a * n;
    if p % n == q % n {
      Multiples(b - a, n);
    }
  }

  lemma SameCell(p: nat, n: nat)
    requires n > 0
    ensures CellOf(p + n, n) == CellOf(p, n)
  {
    var a, b := p / n, (p + n) / n;
    assert p == a * n + p % n && p + n == b * n + (p + n) % n;
    assert (b - a - 1) * n == b * n - a * n - n;
    Multiples(b - a - 1, n);
  }

  lemma SmallCell(p: nat, n: nat)
    requires p < n
    ensures CellOf(p, n) == p
  {
  }
}
