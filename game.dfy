/** The turn state machine.  The ECS world is the object `World`: the `Board`
    resource is an array, the live tiles with their `Value` and `Pos`
    components a map from entity to `Tile`, the `MoveType` components a map
    from entity to instruction, and `AppState`, `Score`, `ScoreToAdd` and
    `HighScore` are fields.  Each system of the schedule is a method, and an
    event is a call: a `MoveEvent` is `Move`, a `TweenCompleted` event is
    `AnimCompleted`, a `NewGameEvent` is `NewGame`.  `AddPieceEvent`s
    accumulate in `requested` until `AddPiece` handles them. */
module Game {
  import opened Grid
  import opened Sweep
  import opened Spawn
  import opened GameEnd

  datatype Phase = Setup | Input | Anim | PostAnim | GameOver

  /** The `Value` and `Pos` components of a live tile. */
  datatype Tile = Tile(value: int, pos: Pos)

  /** The events `input` sends in one frame. */
  datatype Requests = Requests(move: Option<Direction>, newGame: bool)

  /** The order in which `input` tests the direction keys. */
  function Rank(d: Direction): nat
  {
    match d
    case Up => 0
    case Left => 1
    case Down => 2
    case Right => 3
  }

  /** `input`: `pressed` holds the directions whose key (WASD or an arrow)
      was just pressed, `reset` whether R was.  A move is requested only in
      the `Input` phase, for the first pressed direction in the order up,
      left, down, right; a new game only in `Input` or `GameOver`. */
  function InputEvents(phase: Phase, pressed: set<Direction>, reset: bool): (r: Requests)
    ensures r.move.Some? <==> phase == Input && pressed != {}
    ensures r.move.Some? ==> r.move.value in pressed && forall d | d in pressed :: Rank(r.move.value) <= Rank(d)
    ensures r.newGame <==> reset && (phase == Input || phase == GameOver)
  {
    var move :=
      if phase != Input then None
      else if Up in pressed then Some(Up)
      else if Left in pressed then Some(Left)
      else if Down in pressed then Some(Down)
      else if Right in pressed then Some(Right)
      else None;
    assert forall d | d in pressed :: d == Up || d == Left || d == Down || d == Right;
    Requests(move, reset && (phase == Input || phase == GameOver))
  }

  /** The `MoveType` components after the queued inserts are applied in
      order: an insert gives its tile that instruction, replacing any
      earlier one. */
  function Applied(cmds: seq<Insert>): (m: map<Entity, MoveType>)
    ensures m.Keys == Entities(cmds)
    ensures forall e | e in m :: Insert(e, m[e]) in cmds
  {
    if cmds == [] then map[]
    else
      var n := |cmds| - 1;
      var m := Applied(cmds[..n]);
      assert cmds == cmds[..n] + [cmds[n]];
      assert Entities(cmds) == Entities(cmds[..n]) + {cmds[n].entity};
      m[cmds[n].entity := cmds[n].move]
  }

  /** The tiles spawned, as live entities, one `create_piece` after the other. */
  function TilesOf(spawned: seq<Piece>): (m: map<Entity, Tile>)
    ensures forall j | 0 <= j < |spawned| :: spawned[j].entity in m
    ensures forall e | e in m :: exists j | 0 <= j < |spawned| :: spawned[j].entity == e && m[e] == Tile(spawned[j].value, spawned[j].pos)
  {
    if spawned == [] then map[]
    else
      var n := |spawned| - 1;
      var p := spawned[n];
      var m := TilesOf(spawned[..n]);
      assert forall j | 0 <= j < n :: spawned[..n][j] == spawned[j];
      m[p.entity := Tile(p.value, p.pos)]
  }

  /** The `MoveType` components a move in direction `d` inserts: every tile
      on the board gets one, and every target is a cell of the board. */
  function Instructions(b: seq<Option<Piece>>, size: nat, d: Direction): (a: map<Entity, MoveType>)
    requires |b| == size * size && size > 0
    ensures forall i | 0 <= i < |b| && b[i].Some? :: b[i].value.entity in a
    ensures forall e | e in a :: InRange(a[e].target, size)
  {
    MoveCoversBoard(b, size, d);
    Applied(SweepMoves(b, size, SweepOf(d, size), size).inserts)
  }

  /** The tiles `add_piece_event` spawns have handles from `firstId` on and
      lie on the board. */
  lemma SpawnedTilesValid(b: seq<Option<Piece>>, size: nat, rolls: seq<Roll>, firstId: Entity)
    requires size > 0 && |b| == size * size
    requires |Empties(b)| > 0 ==> RollsFit(|Empties(b)|, rolls)
    ensures var spawned := AddPieces(b, size, rolls, firstId).1;
            forall e | e in TilesOf(spawned) :: firstId <= e < firstId + |spawned| && InRange(TilesOf(spawned)[e].pos, size)
  {
    SpawnPolicy(b, size, rolls, firstId);
  }

  /** No two live tiles share a position. */
  ghost predicate DistinctPositions(tiles: map<Entity, Tile>)
  {
    forall e, f | e in tiles && f in tiles && e != f :: tiles[e].pos != tiles[f].pos
  }

  function Max(a: int, b: int): int
  {
    if a >= b then a else b
  }

  class World {
    const size: nat
    /** The `Board` resource: the tiles by cell, rebuilt from the live tiles by `set_board`. */
    var board: array<Option<Piece>>
    /** The live tiles. */
    var tiles: map<Entity, Tile>
    /** The `MoveType` components: instructions whose animation has not completed. */
    var pending: map<Entity, MoveType>
    /** The next fresh entity handle. */
    var nextId: Entity
    var phase: Phase
    /** `Score`, `ScoreToAdd` and `HighScore`. */
    var score: int
    var gain: int
    var high: int
    /** The tiles asked for by `AddPieceEvent`s not yet handled. */
    var requested: nat

    ghost predicate Valid()
      reads this, board
    {
      && size > 0 && board.Length == size * size
      && (forall e | e in tiles :: e < nextId && InRange(tiles[e].pos, size))
      && (forall e | e in pending :: InRange(pending[e].target, size))
      && 0 <= high && score <= high
    }

    /** The board holds exactly the live tiles: every occupied cell holds a
        live tile at that cell's position, and the cell of every live tile's
        position is occupied. */
    ghost predicate BoardMatchesTiles()
      reads this, board
    {
      && board.Length == size * size
      && (forall i | 0 <= i < board.Length && board[i].Some? ::
            var p := board[i].value;
            p.entity in tiles && tiles[p.entity] == Tile(p.value, p.pos) && InRange(p.pos, size) && ToIndex(p.pos, size) == i)
      && (forall e | e in tiles :: InRange(tiles[e].pos, size) && board[ToIndex(tiles[e].pos, size)].Some?)
    }

    /** `setup` followed by `start_game`: an empty board of `size` by `size`
        cells, all scores zero, two tiles requested and the game waiting for
        input. */
    constructor (size: nat)
      requires size > 0
      ensures Valid() && fresh(board) && this.size == size
      ensures forall i | 0 <= i < board.Length :: board[i].None?
      ensures tiles == map[] && pending == map[] && nextId == 0
      ensures score == 0 && gain == 0 && high == 0
      ensures requested == 2 && phase == Input
    {
      this.size := size;
      board := new Option<Piece>[size * size](_ => None);
      tiles := map[];
      pending := map[];
      nextId := 0;
      score, gain, high := 0, 0, 0;
      requested := 2;
      phase := Input;
    }

    /** `set_board`: clear every cell, then write each live tile, in any
        order, at the cell of its position.  When no two tiles share a
        position, the cell of each tile's position holds exactly that tile. */
    method SetBoard()
      requires Valid()
      modifies board
      ensures Valid() && BoardMatchesTiles()
      ensures DistinctPositions(tiles) ==>
                forall e | e in tiles :: board[ToIndex(tiles[e].pos, size)] == Some(Piece(e, tiles[e].value, tiles[e].pos))
    {
      for i := 0 to board.Length
        invariant forall k | 0 <= k < i :: board[k].None?
      {
        board[i] := None;
      }
      var rest := tiles.Keys;
      while rest != {}
        invariant rest <= tiles.Keys
        invariant forall i | 0 <= i < board.Length && board[i].Some? ::
                    var p := board[i].value;
                    p.entity in tiles && tiles[p.entity] == Tile(p.value, p.pos) && InRange(p.pos, size) && ToIndex(p.pos, size) == i
        invariant forall e | e in tiles && e !in rest :: board[ToIndex(tiles[e].pos, size)].Some?
        decreases rest
      {
        var e :| e in rest;
        var t := tiles[e];
        board[ToIndex(t.pos, size)] := Some(Piece(e, t.value, t.pos));
        rest := rest - {e};
      }
      if DistinctPositions(tiles) {
        forall e | e in tiles
          ensures board[ToIndex(tiles[e].pos, size)] == Some(Piece(e, tiles[e].value, tiles[e].pos))
        {
          var q := board[ToIndex(tiles[e].pos, size)].value;
          if q.pos != tiles[e].pos {
            ToIndexInjective(q.pos, tiles[e].pos, size);
          }
        }
      }
    }

    /** A `MoveEvent`: `set_board` rebuilds the board, then `process_move`
        runs on it. */
    method Move(d: Direction)
      requires Valid()
      modifies this, board
      ensures Valid() && BoardMatchesTiles() && board == old(board)
      ensures pending == old(pending) + Instructions(board[..], size, d)
      ensures gain == old(gain) + SweepMoves(board[..], size, SweepOf(d, size), size).gain
      ensures forall i | 0 <= i < board.Length && board[i].Some? :: board[i].value.entity in pending
      ensures phase == Anim
      ensures tiles == old(tiles) && nextId == old(nextId) && requested == old(requested)
      ensures score == old(score) && high == old(high)
    {
      SetBoard();
      ProcessMoveSystem(d);
    }

    /** `process_move`: every tile on the board gets an instruction, the
        points of the merges are added to `gain`, and the animation starts. */
    method ProcessMoveSystem(d: Direction)
      requires Valid()
      modifies this
      ensures Valid()
      ensures pending == old(pending) + Instructions(board[..], size, d)
      ensures gain == old(gain) + SweepMoves(board[..], size, SweepOf(d, size), size).gain
      ensures forall i | 0 <= i < board.Length && board[i].Some? :: board[i].value.entity in pending
      ensures phase == Anim
      ensures board == old(board) && tiles == old(tiles) && nextId == old(nextId) && requested == old(requested)
      ensures score == old(score) && high == old(high)
    {
      var b := board[..];
      var cmds, gained := ProcessMove(b, size, d);
      var a := Applied(cmds);
      assert a == Instructions(b, size, d);
      pending := pending + a;
      gain := gain + gained;
      phase := Anim;
    }

    /** A `TweenCompleted` event for the tile `e`: ignored unless `e` carries
        an instruction; a `Move` sets its position to the target and drops the
        instruction; a `MoveDouble` doubles the survivor, if it is live, and
        despawns `e`. */
    method AnimCompleted(e: Entity)
      requires Valid()
      modifies this
      ensures Valid()
      ensures e !in old(pending) ==> tiles == old(tiles) && pending == old(pending)
      ensures e in old(pending) ==> pending == old(pending) - {e}
      ensures e in old(pending) && old(pending)[e].Move? ==>
                tiles == if e in old(tiles) then old(tiles)[e := old(tiles)[e].(pos := old(pending)[e].target)] else old(tiles)
      ensures e in old(pending) && old(pending)[e].MoveDouble? ==>
                var s := old(pending)[e].survivor;
                tiles == (if s in old(tiles) then old(tiles)[s := old(tiles)[s].(value := old(tiles)[s].value * 2)] else old(tiles)) - {e}
      ensures board == old(board) && phase == old(phase) && nextId == old(nextId) && requested == old(requested)
      ensures score == old(score) && gain == old(gain) && high == old(high)
    {
      if e in pending {
        match pending[e]
        case Move(pos) =>
          if e in tiles {
            tiles := tiles[e := tiles[e].(pos := pos)];
          }
          pending := pending - {e};
        case MoveDouble(_, target) =>
          if target in tiles {
            tiles := tiles[target := tiles[target].(value := tiles[target].value * 2)];
          }
          tiles := tiles - {e};
          pending := pending - {e};
      }
    }

    /** `post_anim`: one tile is requested, input resumes, the move's points
        go to the score and the high score follows the score. */
    method PostAnimate()
      requires Valid()
      modifies this
      ensures Valid()
      ensures score == old(score) + old(gain) && gain == 0 && high == Max(old(high), score)
      ensures high >= old(high) && high >= score
      ensures requested == old(requested) + 1 && phase == Input
      ensures board == old(board) && tiles == old(tiles) && pending == old(pending) && nextId == old(nextId)
    {
      requested := requested + 1;
      phase := Input;
      score := score + gain;
      gain := 0;
      high := Max(high, score);
    }

    /** `check_anim_end`, which runs in the `Anim` phase: once no tile
        carries an instruction the game enters `PostAnim`, whose systems
        `set_board` and `post_anim` then run. */
    method CheckAnimEnd()
      requires Valid()
      modifies this, board
      ensures Valid() && board == old(board)
      ensures !(old(phase) == Anim && old(pending) == map[]) ==> unchanged(this) && unchanged(board)
      ensures old(phase) == Anim && old(pending) == map[] ==>
                && BoardMatchesTiles()
                && score == old(score) + old(gain) && gain == 0 && high == Max(old(high), score)
                && requested == old(requested) + 1 && phase == Input
                && tiles == old(tiles) && pending == old(pending) && nextId == old(nextId)
    {
      if phase == Anim && pending == map[] {
        phase := PostAnim;
        SetBoard();
        PostAnimate();
      }
    }

    /** A `NewGameEvent`: the board is cleared, two tiles are requested,
        input resumes, every tile is despawned and the score is reset;
        `gain` and the high score are kept. */
    method NewGame()
      requires Valid()
      modifies this, board
      ensures Valid() && board == old(board)
      ensures forall i | 0 <= i < board.Length :: board[i].None?
      ensures tiles == map[] && pending == map[] && score == 0
      ensures requested == old(requested) + 2 && phase == Input
      ensures gain == old(gain) && high == old(high) && nextId == old(nextId)
    {
      for i := 0 to board.Length
        modifies board
        invariant forall k | 0 <= k < i :: board[k].None?
      {
        board[i] := None;
      }
      requested := requested + 2;
      phase := Input;
      tiles := map[];
      pending := map[];
      score := 0;
    }

    /** The `AddPieceEvent` systems: `add_piece_event` spawns the requested
        tiles, drawing one roll per tile, then `check_game_end` ends the game
        if the board is full with no equal neighbours. */
    method AddPiece(rolls: seq<Roll>)
      requires Valid() && requested > 0 && |rolls| == requested
      requires |Empties(board[..])| > 0 ==> RollsFit(|Empties(board[..])|, rolls)
      modifies this, board
      ensures Valid() && board == old(board)
      ensures var (after, spawned) := AddPieces(old(board[..]), size, rolls, old(nextId));
              && board[..] == after
              && tiles == old(tiles) + TilesOf(spawned)
              && nextId == old(nextId) + |spawned|
      ensures requested == 0
      ensures phase == if Stuck(board[..], size) then GameOver else old(phase)
      ensures pending == old(pending) && score == old(score) && gain == old(gain) && high == old(high)
    {
      SpawnTiles(rolls);
      CheckGameEndSystem();
    }

    /** `add_piece_event`: the requested tiles are spawned on the board and
        become live tiles with fresh entity handles. */
    method SpawnTiles(rolls: seq<Roll>)
      requires Valid() && |rolls| == requested
      requires |Empties(board[..])| > 0 ==> RollsFit(|Empties(board[..])|, rolls)
      modifies this, board
      ensures Valid() && board == old(board)
      ensures var (after, spawned) := AddPieces(old(board[..]), size, rolls, old(nextId));
              && board[..] == after
              && tiles == old(tiles) + TilesOf(spawned)
              && nextId == old(nextId) + |spawned|
      ensures requested == 0
      ensures phase == old(phase) && pending == old(pending) && score == old(score) && gain == old(gain) && high == old(high)
    {
      var b := board[..];
      SpawnedTilesValid(b, size, rolls, nextId);
      var spawned := AddPieceEvent(board, size, rolls, nextId);
      var born := TilesOf(spawned);
      tiles := tiles + born;
      nextId := nextId + |spawned|;
      requested := 0;
    }

    /** `check_game_end`: the game is over when the board is stuck. */
    method CheckGameEndSystem()
      requires Valid()
      modifies this
      ensures Valid()
      ensures phase == if Stuck(board[..], size) then GameOver else old(phase)
      ensures board == old(board) && tiles == old(tiles) && pending == old(pending) && nextId == old(nextId)
      ensures requested == old(requested) && score == old(score) && gain == old(gain) && high == old(high)
    {
      var over := CheckGameEnd(board[..], size);
      if over {
        phase := GameOver;
      }
    }
  }
}
