/** `check_game_end`: the game is over when every cell holds a tile and no
    two orthogonally adjacent tiles share a value. */
module GameEnd {
  import opened Grid

  predicate Full(b: seq<Option<Piece>>)
  {
    forall i | 0 <= i < |b| :: b[i].Some?
  }

  /** The neighbour of `p` in the `k`-th of the source's `dirs`:
      (0, 1), (0, -1), (1, 0), (-1, 0), in that order. */
  function Neighbour(p: Pos, k: int): Pos
    requires 0 <= k < 4
  {
    if k == 0 then Pos(p.x, p.y + 1)
    else if k == 1 then Pos(p.x, p.y - 1)
    else if k == 2 then Pos(p.x + 1, p.y)
    else Pos(p.x - 1, p.y)
  }

  /** `p` and `q` are orthogonal neighbours. */
  predicate Adjacent(p: Pos, q: Pos)
  {
    || (p.x == q.x && (q.y == p.y + 1 || q.y == p.y - 1))
    || (p.y == q.y && (q.x == p.x + 1 || q.x == p.x - 1))
  }

  /** `p` and `q` are neighbouring cells of the board whose tiles share a value. */
  predicate EqualPair(b: seq<Option<Piece>>, size: nat, p: Pos, q: Pos)
    requires |b| == size * size
  {
    && InRange(p, size) && InRange(q, size) && Adjacent(p, q)
    && b[ToIndex(p, size)].Some? && b[ToIndex(q, size)].Some?
    && b[ToIndex(p, size)].value.value == b[ToIndex(q, size)].value.value
  }

  ghost predicate CanMerge(b: seq<Option<Piece>>, size: nat)
    requires |b| == size * size
  {
    exists p, q :: EqualPair(b, size, p, q)
  }

  /** The condition under which `check_game_end` ends the game. */
  ghost predicate Stuck(b: seq<Option<Piece>>, size: nat)
    requires |b| == size * size
  {
    Full(b) && !CanMerge(b, size)
  }

  /** No neighbour of `p` in the first `m` directions of `dirs` forms an equal pair with it. */
  predicate NoEqualAround(b: seq<Option<Piece>>, size: nat, p: Pos, m: nat)
    requires |b| == size * size && m <= 4
  {
    forall k | 0 <= k < m :: !EqualPair(b, size, p, Neighbour(p, k))
  }

  /** The direction of `dirs` that leads from `p` to its neighbour `q`. */
  function DirTo(p: Pos, q: Pos): (k: int)
    requires Adjacent(p, q)
    ensures 0 <= k < 4 && q == Neighbour(p, k)
  {
    if q.y == p.y + 1 && q.x == p.x then 0
    else if q.y == p.y - 1 && q.x == p.x then 1
    else if q.x == p.x + 1 then 2
    else 3
  }

  /** Trying the four directions from every cell tries every neighbouring pair. */
  lemma AllPairsTried(b: seq<Option<Piece>>, size: nat)
    requires |b| == size * size
    requires forall x, y | 0 <= x < size && 0 <= y < size :: NoEqualAround(b, size, Pos(x, y), 4)
    ensures !CanMerge(b, size)
  {
    forall p, q | InRange(p, size) && InRange(q, size) && Adjacent(p, q)
      ensures !EqualPair(b, size, p, q)
    {
      var k := DirTo(p, q);
      assert NoEqualAround(b, size, Pos(p.x, p.y), 4);
    }
  }

  /** The inner loop of `check_game_end` for the cell `cur`: whether one of
      its four neighbours on the board holds a tile of the same value. */
  method EqualAround(board: seq<Option<Piece>>, size: nat, cur: Pos) returns (equal: bool)
    requires |board| == size * size && InRange(cur, size)
    ensures equal <==> !NoEqualAround(board, size, cur, 4)
  {
    for k := 0 to 4
      invariant NoEqualAround(board, size, cur, k)
    {
      var neigh := Neighbour(cur, k);
      if 0 <= neigh.x < size && 0 <= neigh.y < size {
        var p1 := board[ToIndex(cur, size)];
        var p2 := board[ToIndex(neigh, size)];
        if p1.Some? && p2.Some? && p1.value.value == p2.value.value {
          assert EqualPair(board, size, cur, neigh);
          return true;
        }
      }
    }
    return false;
  }

  /** `check_game_end`: return at the first empty cell; then try every cell
      and each of its four neighbours on the board, and return at the first
      pair of equal values; otherwise the game is over. */
  method CheckGameEnd(board: seq<Option<Piece>>, size: nat) returns (over: bool)
    requires |board| == size * size
    ensures over <==> Stuck(board, size)
  {
    for i := 0 to |board|
      invariant forall k | 0 <= k < i :: board[k].Some?
    {
      if board[i].None? {
        return false;
      }
    }
    for i := 0 to size
      invariant forall x, y | 0 <= x < i && 0 <= y < size :: NoEqualAround(board, size, Pos(x, y), 4)
    {
      for j := 0 to size
        invariant forall x, y | (0 <= x < i && 0 <= y < size) || (x == i && 0 <= y < j) ::
                    NoEqualAround(board, size, Pos(x, y), 4)
      {
        var cur := Pos(i, j);
        var equal := EqualAround(board, size, cur);
        if equal {
          ghost var k :| 0 <= k < 4 && EqualPair(board, size, cur, Neighbour(cur, k));
          return false;
        }
      }
    }
    AllPairsTried(board, size);
    return true;
  }
}
