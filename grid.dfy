/** The board's vocabulary: tile handles, grid positions, the pieces stored in
    the flat row-major board, and the two index conversions between them. */
module Grid {

  datatype Option<T> = None | Some(value: T)

  /** An ECS entity handle; the model allocates them as increasing numbers. */
  type Entity = nat

  /** An `IVec2`: `x` is the column, `y` the row (row 0 is the top edge). */
  datatype Pos = Pos(x: int, y: int)

  /** What a board cell holds: the tile's handle, value and position. */
  datatype Piece = Piece(entity: Entity, value: int, pos: Pos)

  predicate InRange(p: Pos, size: nat)
  {
    0 <= p.x < size && 0 <= p.y < size
  }

  /** `to_index`: row-major, `y * size + x`; an in-range position lands inside the board. */
  function ToIndex(p: Pos, size: nat): (i: int)
    ensures InRange(p, size) ==> 0 <= i < size * size
  {
    if InRange(p, size) then MulMono(p.y, size - 1, size); p.y * size + p.x
    else p.y * size + p.x
  }

  /** `to_pos`: column is `index % size`, row is `index / size` (index and size are never negative,
      so the source's truncating operators agree with Dafny's). */
  function ToPos(i: int, size: nat): (p: Pos)
    requires size > 0
    ensures 0 <= i < size * size ==> InRange(p, size)
  {
    if 0 <= i < size * size then DivBelow(i, size, size); Pos(i % size, i / size)
    else Pos(i % size, i / size)
  }

  lemma PosIndexRoundTrip(p: Pos, size: nat)
    requires InRange(p, size)
    ensures ToPos(ToIndex(p, size), size) == p
  {
    var i := p.y * size + p.x;
    DivModUnique(i, size, p.y, p.x);
  }

  lemma IndexPosRoundTrip(i: int, size: nat)
    requires 0 <= i < size * size
    ensures ToIndex(ToPos(i, size), size) == i
  {
  }

  /** Distinct in-range positions occupy distinct cells. */
  lemma ToIndexInjective(p: Pos, q: Pos, size: nat)
    requires InRange(p, size) && InRange(q, size) && p != q
    ensures ToIndex(p, size) != ToIndex(q, size)
  {
    PosIndexRoundTrip(p, size);
    PosIndexRoundTrip(q, size);
  }

  lemma MulMono(a: int, b: int, n: nat)
    requires a <= b
    ensures a * n <= b * n
  {
    var d := b - a;
    assert b * n == a * n + d * n;
  }

  lemma DivBelow(i: int, n: nat, m: int)
    requires n > 0 && 0 <= i < m * n
    ensures i / n < m
  {
    var q := i / n;
    if m <= q {
      MulMono(m, q, n);
    }
  }

  lemma DivModUnique(i: int, n: nat, q: int, r: int)
    requires n > 0 && 0 <= r < n && i == q * n + r
    ensures i % n == r && i / n == q
  {
    var q', r' := i / n, i % n;
    if q' < q {
      MulMono(q' + 1, q, n);
    } else if q < q' {
      MulMono(q + 1, q', n);
    }
  }
}
