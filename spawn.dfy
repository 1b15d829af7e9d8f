/** `add_piece_event`'s choice of cells: the empty cells are collected once,
    in board order, and every new tile removes a random entry of that list,
    so no cell is chosen twice.  The random number generator is an oracle:
    the caller supplies one `Roll` per requested tile. */
module Spawn {
  import opened Grid

  /** The two draws made for one tile: `pick` stands for
      `gen_range(0..empties.len())`, `coin` for `gen_range(0..10)`. */
  datatype Roll = Roll(pick: nat, coin: nat)

  /** A new tile is a 4 when the coin shows 0 (one chance in ten), else a 2. */
  function NewValue(r: Roll): (v: int)
    ensures v == 2 || v == 4
    ensures v == 4 <==> r.coin == 0
  {
    if r.coin == 0 then 4 else 2
  }

  /** The indices of the empty cells of `b`, in board order. */
  function Empties(b: seq<Option<Piece>>): (es: seq<nat>)
    ensures forall i | 0 <= i < |es| :: es[i] < |b| && b[es[i]].None?
    ensures forall i, j | 0 <= i < j < |es| :: es[i] < es[j]
    ensures forall k | 0 <= k < |b| && b[k].None? :: k in es
  {
    if b == [] then []
    else
      var n := |b| - 1;
      var es := Empties(b[..n]);
      assert forall k | 0 <= k < n :: b[..n][k] == b[k];
      if b[n].None? then es + [n] else es
  }

  /** The rolls fit a list of `n` empty cells: there are at most `n` of them
      (`gen_range(0..0)` panics), the `j`-th pick indexes the list after `j`
      removals, and every coin is a draw from `0..10`. */
  predicate RollsFit(n: nat, rolls: seq<Roll>)
  {
    |rolls| <= n && forall j | 0 <= j < |rolls| :: rolls[j].pick < n - j && rolls[j].coin < 10
  }

  /** `Vec::remove`: the list without its `i`-th entry, the rest in order. */
  function Remove(s: seq<nat>, i: nat): (r: seq<nat>)
    requires i < |s|
    ensures |r| == |s| - 1
    ensures forall k | 0 <= k < i :: r[k] == s[k]
    ensures forall k | i <= k < |r| :: r[k] == s[k + 1]
  {
    s[..i] + s[i + 1..]
  }

  /** What is left of the empty list, and the cells chosen so far, after the given rolls. */
  datatype Draws = Draws(remaining: seq<nat>, picks: seq<nat>)

  function Draw(es: seq<nat>, rolls: seq<Roll>): (d: Draws)
    requires RollsFit(|es|, rolls)
    ensures |d.remaining| == |es| - |rolls| && |d.picks| == |rolls|
  {
    if rolls == [] then Draws(es, [])
    else
      var n := |rolls| - 1;
      assert RollsFit(|es|, rolls[..n]) by {
        assert forall j | 0 <= j < n :: rolls[..n][j] == rolls[j];
      }
      var d := Draw(es, rolls[..n]);
      var p := rolls[n].pick;
      Draws(Remove(d.remaining, p), d.picks + [d.remaining[p]])
  }

  predicate Distinct(s: seq<nat>)
  {
    forall i, j | 0 <= i < j < |s| :: s[i] != s[j]
  }

  /** Removing the `i`-th entry of a list of distinct cells removes exactly that cell. */
  lemma RemoveOne(s: seq<nat>, i: nat)
    requires Distinct(s) && i < |s|
    ensures Distinct(Remove(s, i))
    ensures forall x | x in Remove(s, i) :: x in s && x != s[i]
    ensures forall x | x in s :: x in Remove(s, i) || x == s[i]
  {
    var r := Remove(s, i);
    forall x | x in r
      ensures x in s && x != s[i]
    {
      var k :| 0 <= k < |r| && r[k] == x;
      if k < i { assert x == s[k]; } else { assert x == s[k + 1]; }
    }
    forall x | x in s
      ensures x in r || x == s[i]
    {
      var k :| 0 <= k < |s| && s[k] == x;
      if k < i { assert r[k] == x; } else if k > i { assert r[k - 1] == x; }
    }
  }

  /** Picks never repeat: drawing from a list of distinct cells gives
      distinct picks, all taken from the list and none left in it, and the
      remaining list holds exactly the other cells of the original one. */
  lemma {:induction false} DrawDistinct(es: seq<nat>, rolls: seq<Roll>)
    requires Distinct(es) && RollsFit(|es|, rolls)
    ensures var d := Draw(es, rolls);
            && Distinct(d.picks)
            && Distinct(d.remaining)
            && (forall j | 0 <= j < |d.picks| :: d.picks[j] in es && d.picks[j] !in d.remaining)
            && (forall x | x in d.remaining :: x in es)
            && (forall x | x in es :: x in d.remaining || x in d.picks)
  {
    if rolls != [] {
      var n := |rolls| - 1;
      assert RollsFit(|es|, rolls[..n]) by {
        assert forall j | 0 <= j < n :: rolls[..n][j] == rolls[j];
      }
      DrawDistinct(es, rolls[..n]);
      var d := Draw(es, rolls[..n]);
      var p := rolls[n].pick;
      RemoveOne(d.remaining, p);
      var d' := Draw(es, rolls);
      assert d' == Draws(Remove(d.remaining, p), d.picks + [d.remaining[p]]);
      forall j | 0 <= j < |d'.picks|
        ensures d'.picks[j] in es && d'.picks[j] !in d'.remaining
      {
        if j < n { assert d'.picks[j] == d.picks[j]; }
      }
    }
  }

  /** The tiles spawned for the picks: entity handles are allocated from
      `firstId` on, the position is the picked cell's, the value the coin's. */
  function Spawned(size: nat, picks: seq<nat>, rolls: seq<Roll>, firstId: Entity): (ps: seq<Piece>)
    requires size > 0 && |picks| == |rolls|
    ensures |ps| == |picks|
    ensures forall j | 0 <= j < |ps| ::
              ps[j].entity == firstId + j && ps[j].pos == ToPos(picks[j], size) && ps[j].value == NewValue(rolls[j])
  {
    seq(|picks|, (j: int) requires 0 <= j < |picks| => Piece(firstId + j, NewValue(rolls[j]), ToPos(picks[j], size)))
  }

  /** The board with the `j`-th tile written at the `j`-th picked cell, in order. */
  function Place(b: seq<Option<Piece>>, picks: seq<nat>, tiles: seq<Piece>): (r: seq<Option<Piece>>)
    requires |picks| == |tiles| && forall j | 0 <= j < |picks| :: picks[j] < |b|
    ensures |r| == |b|
  {
    if picks == [] then b
    else
      var n := |picks| - 1;
      Place(b, picks[..n], tiles[..n])[picks[n] := Some(tiles[n])]
  }

  /** Writing at distinct cells: each picked cell holds its tile and every
      other cell keeps its old content. */
  lemma {:induction false} PlaceEffect(b: seq<Option<Piece>>, picks: seq<nat>, tiles: seq<Piece>)
    requires |picks| == |tiles| && Distinct(picks) && forall j | 0 <= j < |picks| :: picks[j] < |b|
    ensures forall j | 0 <= j < |picks| :: Place(b, picks, tiles)[picks[j]] == Some(tiles[j])
    ensures forall i | 0 <= i < |b| && i !in picks :: Place(b, picks, tiles)[i] == b[i]
  {
    if picks != [] {
      var n := |picks| - 1;
      PlaceEffect(b, picks[..n], tiles[..n]);
      forall i | 0 <= i < |b| && i !in picks
        ensures Place(b, picks, tiles)[i] == b[i]
      {
        assert i !in picks[..n];
      }
      forall j | 0 <= j < n
        ensures Place(b, picks, tiles)[picks[j]] == Some(tiles[j])
      {
        assert picks[..n][j] == picks[j] && tiles[..n][j] == tiles[j];
      }
    }
  }

  /** The whole of `add_piece_event` for one batch of requested tiles. */
  function AddPieces(b: seq<Option<Piece>>, size: nat, rolls: seq<Roll>, firstId: Entity): (r: (seq<Option<Piece>>, seq<Piece>))
    requires size > 0 && |b| == size * size
    requires |Empties(b)| > 0 ==> RollsFit(|Empties(b)|, rolls)
  {
    var es := Empties(b);
    if |es| == 0 then (b, [])
    else
      var d := Draw(es, rolls);
      var tiles := Spawned(size, d.picks, rolls, firstId);
      assert forall j | 0 <= j < |d.picks| :: d.picks[j] < |b| by {
        DrawDistinct(es, rolls);
        assert Distinct(es);
      }
      (Place(b, d.picks, tiles), tiles)
  }

  /** The spawn policy: with no empty cell nothing changes; otherwise every
      requested tile is spawned, each in its own cell that was empty on entry,
      at that cell's position, with value 2 or 4; no occupied cell changes,
      and every cell that receives no tile keeps its content. */
  lemma SpawnPolicy(b: seq<Option<Piece>>, size: nat, rolls: seq<Roll>, firstId: Entity)
    requires size > 0 && |b| == size * size
    requires |Empties(b)| > 0 ==> RollsFit(|Empties(b)|, rolls)
    ensures var (after, tiles) := AddPieces(b, size, rolls, firstId);
            && |after| == |b|
            && (|Empties(b)| == 0 ==> after == b && tiles == [])
            && (|Empties(b)| > 0 ==>
                  && |tiles| == |rolls|
                  && (forall j | 0 <= j < |tiles| ::
                        var i := ToIndex(tiles[j].pos, size);
                        && InRange(tiles[j].pos, size)
                        && 0 <= i < |b| && b[i].None? && after[i] == Some(tiles[j])
                        && tiles[j].entity == firstId + j
                        && (tiles[j].value == 2 || tiles[j].value == 4))
                  && (forall j, k | 0 <= j < k < |tiles| :: tiles[j].pos != tiles[k].pos)
                  && (forall i | 0 <= i < |b| && b[i].Some? :: after[i] == b[i])
                  && (forall i | 0 <= i < |b| && (forall j | 0 <= j < |tiles| :: ToIndex(tiles[j].pos, size) != i) ::
                        after[i] == b[i]))
  {
    if |Empties(b)| > 0 {
      SpawnLands(b, size, rolls, firstId);
      SpawnKeepsRest(b, size, rolls, firstId);
    }
  }

  /** The cells `AddPieces` picks: distinct empty cells, each the cell of its tile's position. */
  lemma SpawnPicks(b: seq<Option<Piece>>, size: nat, rolls: seq<Roll>, firstId: Entity)
    requires size > 0 && |b| == size * size
    requires |Empties(b)| > 0 && RollsFit(|Empties(b)|, rolls)
    ensures var d := Draw(Empties(b), rolls);
            var tiles := Spawned(size, d.picks, rolls, firstId);
            && Distinct(d.picks)
            && (forall j | 0 <= j < |d.picks| :: d.picks[j] < |b| && b[d.picks[j]].None?)
            && (forall j | 0 <= j < |tiles| :: ToIndex(tiles[j].pos, size) == d.picks[j])
            && AddPieces(b, size, rolls, firstId) == (Place(b, d.picks, tiles), tiles)
  {
    var es := Empties(b);
    var d := Draw(es, rolls);
    var tiles := Spawned(size, d.picks, rolls, firstId);
    DrawDistinct(es, rolls);
    forall j | 0 <= j < |tiles|
      ensures ToIndex(tiles[j].pos, size) == d.picks[j]
    {
      IndexPosRoundTrip(d.picks[j], size);
    }
  }

  /** Each spawned tile lands in its own empty cell, with a fresh handle and value 2 or 4. */
  lemma SpawnLands(b: seq<Option<Piece>>, size: nat, rolls: seq<Roll>, firstId: Entity)
    requires size > 0 && |b| == size * size
    requires |Empties(b)| > 0 && RollsFit(|Empties(b)|, rolls)
    ensures var (after, tiles) := AddPieces(b, size, rolls, firstId);
            && |tiles| == |rolls|
            && (forall j | 0 <= j < |tiles| ::
                  var i := ToIndex(tiles[j].pos, size);
                  && InRange(tiles[j].pos, size)
                  && 0 <= i < |b| && b[i].None? && after[i] == Some(tiles[j])
                  && tiles[j].entity == firstId + j
                  && (tiles[j].value == 2 || tiles[j].value == 4))
            && (forall j, k | 0 <= j < k < |tiles| :: tiles[j].pos != tiles[k].pos)
  {
    SpawnPicks(b, size, rolls, firstId);
    var d := Draw(Empties(b), rolls);
    var tiles := Spawned(size, d.picks, rolls, firstId);
    var after := Place(b, d.picks, tiles);
    PlaceEffect(b, d.picks, tiles);
    forall j | 0 <= j < |tiles|
      ensures var i := ToIndex(tiles[j].pos, size);
              && InRange(tiles[j].pos, size)
              && 0 <= i < |b| && b[i].None? && after[i] == Some(tiles[j])
              && tiles[j].entity == firstId + j
              && (tiles[j].value == 2 || tiles[j].value == 4)
    {
      assert ToIndex(tiles[j].pos, size) == d.picks[j];
    }
    forall j, k | 0 <= j < k < |tiles|
      ensures tiles[j].pos != tiles[k].pos
    {
      assert ToIndex(tiles[j].pos, size) != ToIndex(tiles[k].pos, size);
    }
  }

  /** No occupied cell changes, and a cell that receives no tile keeps its content. */
  lemma SpawnKeepsRest(b: seq<Option<Piece>>, size: nat, rolls: seq<Roll>, firstId: Entity)
    requires size > 0 && |b| == size * size
    requires |Empties(b)| > 0 && RollsFit(|Empties(b)|, rolls)
    ensures var (after, tiles) := AddPieces(b, size, rolls, firstId);
            && |after| == |b|
            && (forall i | 0 <= i < |b| && b[i].Some? :: after[i] == b[i])
            && (forall i | 0 <= i < |b| && (forall j | 0 <= j < |tiles| :: ToIndex(tiles[j].pos, size) != i) ::
                  after[i] == b[i])
  {
    SpawnPicks(b, size, rolls, firstId);
    var d := Draw(Empties(b), rolls);
    var tiles := Spawned(size, d.picks, rolls, firstId);
    PlaceEffect(b, d.picks, tiles);
    forall i | 0 <= i < |b| && b[i].Some?
      ensures i !in d.picks
    {
    }
    forall i | 0 <= i < |b| && (forall j | 0 <= j < |tiles| :: ToIndex(tiles[j].pos, size) != i)
      ensures i !in d.picks
    {
    }
  }

  /** One pass of the spawn loop draws the next roll's entry from what is left. */
  lemma DrawSnoc(es: seq<nat>, rolls: seq<Roll>, j: nat)
    requires RollsFit(|es|, rolls) && j < |rolls|
    ensures RollsFit(|es|, rolls[..j]) && RollsFit(|es|, rolls[..j + 1])
    ensures var d := Draw(es, rolls[..j]);
            && rolls[j].pick < |d.remaining|
            && Draw(es, rolls[..j + 1]) == Draws(Remove(d.remaining, rolls[j].pick), d.picks + [d.remaining[rolls[j].pick]])
  {
    assert forall k | 0 <= k < j :: rolls[..j][k] == rolls[k];
    assert forall k | 0 <= k <= j :: rolls[..j + 1][k] == rolls[k];
    assert rolls[..j + 1][..j] == rolls[..j];
  }

  lemma SpawnedSnoc(size: nat, picks: seq<nat>, rolls: seq<Roll>, j: nat, x: nat, firstId: Entity)
    requires size > 0 && |picks| == j < |rolls|
    ensures Spawned(size, picks + [x], rolls[..j + 1], firstId) ==
              Spawned(size, picks, rolls[..j], firstId) + [Piece(firstId + j, NewValue(rolls[j]), ToPos(x, size))]
  {
  }

  lemma PlaceSnoc(b: seq<Option<Piece>>, picks: seq<nat>, tiles: seq<Piece>, x: nat, t: Piece)
    requires |picks| == |tiles| && (forall j | 0 <= j < |picks| :: picks[j] < |b|) && x < |b|
    ensures Place(b, picks + [x], tiles + [t]) == Place(b, picks, tiles)[x := Some(t)]
  {
    assert (picks + [x])[..|picks|] == picks;
    assert (tiles + [t])[..|tiles|] == tiles;
  }

  /** `add_piece_event`: collect the empty cells once, then for every
      requested tile remove a random entry of the list and write a new tile
      there.  Returns the tiles it spawned. */
  method AddPieceEvent(board: array<Option<Piece>>, size: nat, rolls: seq<Roll>, firstId: Entity)
    returns (spawned: seq<Piece>)
    requires size > 0 && board.Length == size * size
    requires |Empties(board[..])| > 0 ==> RollsFit(|Empties(board[..])|, rolls)
    modifies board
    ensures (board[..], spawned) == AddPieces(old(board[..]), size, rolls, firstId)
  {
    var empties := CollectEmpties(board);
    if |empties| == 0 {
      return [];
    }
    spawned := DrawPieces(board, size, empties, rolls, firstId);
  }

  /** The first loop of `add_piece_event`: the indices of the empty cells, in board order. */
  method CollectEmpties(board: array<Option<Piece>>) returns (empties: seq<nat>)
    ensures empties == Empties(board[..])
  {
    empties := [];
    for i := 0 to board.Length
      invariant empties == Empties(board[..i])
    {
      assert board[..i + 1][..i] == board[..i];
      if board[i].None? {
        empties := empties + [i];
      }
    }
    assert board[..board.Length] == board[..];
  }

  /** The state of the second loop of `add_piece_event` after `j` rolls,
      started on board `b` with the list of empty cells `es`. */
  predicate DrawnSoFar(b: seq<Option<Piece>>, size: nat, es: seq<nat>, rolls: seq<Roll>, firstId: Entity, j: nat,
                       remaining: seq<nat>, picks: seq<nat>, spawned: seq<Piece>, now: seq<Option<Piece>>)
    requires size > 0
  {
    && j <= |rolls|
    && RollsFit(|es|, rolls[..j])
    && Draw(es, rolls[..j]) == Draws(remaining, picks)
    && (forall i | 0 <= i < |picks| :: picks[i] < |b|)
    && (forall i | 0 <= i < |remaining| :: remaining[i] < |b|)
    && spawned == Spawned(size, picks, rolls[..j], firstId)
    && now == Place(b, picks, spawned)
  }

  /** One pass of the second loop keeps `DrawnSoFar`. */
  lemma DrawnStep(b: seq<Option<Piece>>, size: nat, es: seq<nat>, rolls: seq<Roll>, firstId: Entity, j: nat,
                  remaining: seq<nat>, picks: seq<nat>, spawned: seq<Piece>, now: seq<Option<Piece>>)
    requires size > 0 && RollsFit(|es|, rolls) && j < |rolls|
    requires DrawnSoFar(b, size, es, rolls, firstId, j, remaining, picks, spawned, now)
    ensures var p := rolls[j].pick;
            && p < |remaining| && remaining[p] < |now|
            && var tile := Piece(firstId + j, NewValue(rolls[j]), ToPos(remaining[p], size));
               DrawnSoFar(b, size, es, rolls, firstId, j + 1, Remove(remaining, p), picks + [remaining[p]],
                          spawned + [tile], now[remaining[p] := Some(tile)])
  {
    DrawSnoc(es, rolls, j);
    var p := rolls[j].pick;
    var x := remaining[p];
    var rest := Remove(remaining, p);
    assert forall i | 0 <= i < |rest| :: rest[i] < |b| by {
      forall i | 0 <= i < |rest|
        ensures rest[i] < |b|
      {
        if i < p { assert rest[i] == remaining[i]; } else { assert rest[i] == remaining[i + 1]; }
      }
    }
    var tile := Piece(firstId + j, NewValue(rolls[j]), ToPos(x, size));
    SpawnedSnoc(size, picks, rolls, j, x, firstId);
    PlaceSnoc(b, picks, spawned, x, tile);
  }

  /** The second loop of `add_piece_event`, once the list of empty cells is known to be non-empty. */
  method DrawPieces(board: array<Option<Piece>>, size: nat, empties: seq<nat>, rolls: seq<Roll>, firstId: Entity)
    returns (spawned: seq<Piece>)
    requires size > 0 && board.Length == size * size
    requires empties == Empties(board[..]) && |empties| > 0 && RollsFit(|empties|, rolls)
    modifies board
    ensures (board[..], spawned) == AddPieces(old(board[..]), size, rolls, firstId)
  {
    ghost var b := board[..];
    var remaining: seq<nat> := empties;
    ghost var picks: seq<nat> := [];
    spawned := [];
    assert rolls[..0] == [];
    for j := 0 to |rolls|
      invariant DrawnSoFar(b, size, empties, rolls, firstId, j, remaining, picks, spawned, board[..])
    {
      ghost var now := board[..];
      DrawnStep(b, size, empties, rolls, firstId, j, remaining, picks, spawned, now);
      var roll := rolls[j];
      var pos := remaining[roll.pick];
      remaining := Remove(remaining, roll.pick);
      picks := picks + [pos];
      var piece := Piece(firstId + j, NewValue(roll), ToPos(pos, size));
      board[pos] := Some(piece);
      spawned := spawned + [piece];
      assert board[..] == now[pos := Some(piece)];
    }
    assert rolls[..|rolls|] == rolls;
  }
}
