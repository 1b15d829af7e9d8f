/** `process_move` and `update_line`: the direction table, the lines a move
    sweeps, and the two loops that turn the board into one `MoveType`
    instruction per tile plus the score gained.  Bevy's `Commands` buffer,
    into which the source inserts the instructions, is modelled as the
    sequence of queued inserts that the methods return, in the order the
    source queues them. */
module Sweep {
  import opened Grid
  import opened Line

  datatype Direction = Up | Down | Left | Right

  /** The instruction a tile carries while it animates: `Move(target)`, or
      `MoveDouble(target, survivor)` for a tile absorbed by `survivor`. */
  datatype MoveType = Move(target: Pos) | MoveDouble(target: Pos, survivor: Entity)

  /** A queued `commands.entity(entity).insert(move)`. */
  datatype Insert = Insert(entity: Entity, move: MoveType)

  /** One row of `process_move`'s table: the first line's leading cell
      (`start`), the step along a line (`dir`) and the step from one line's
      leading cell to the next line's (`start_dir`). */
  datatype LineTable = LineTable(start: Pos, along: Pos, across: Pos)

  function SweepOf(d: Direction, size: nat): LineTable
  {
    match d
    case Up => LineTable(Pos(0, 0), Pos(0, 1), Pos(1, 0))
    case Down => LineTable(Pos(0, size - 1), Pos(0, -1), Pos(1, 0))
    case Left => LineTable(Pos(0, 0), Pos(1, 0), Pos(0, 1))
    case Right => LineTable(Pos(size - 1, 0), Pos(-1, 0), Pos(0, 1))
  }

  /** The leading cell of line `l`. */
  function LineStart(sw: LineTable, l: int): Pos
  {
    Offset(sw.start, sw.across, l)
  }

  /** The cell at offset `k` from the leading edge of the line that starts at `start`. */
  function Offset(start: Pos, along: Pos, k: int): Pos
  {
    Pos(start.x + along.x * k, start.y + along.y * k)
  }

  /** The cell at offset `k` of line `l`. */
  function CellAt(d: Direction, size: nat, l: nat, k: nat): Pos
  {
    Offset(LineStart(SweepOf(d, size), l), SweepOf(d, size).along, k)
  }

  /** Where the table puts offset `k` of line `l`: the lines of an up or down
      move are the columns, those of a left or right move the rows, and a
      down or right move scans from the far edge. */
  lemma CellAtClosed(d: Direction, size: nat, l: nat, k: nat)
    ensures CellAt(d, size, l, k) ==
              match d
              case Up => Pos(l, k)
              case Down => Pos(l, size - 1 - k)
              case Left => Pos(k, l)
              case Right => Pos(size - 1 - k, l)
  {
  }

  /** The line and offset at which a move in direction `d` visits `p`. */
  function Locate(d: Direction, size: nat, p: Pos): (lk: (int, int))
  {
    match d
    case Up => (p.x, p.y)
    case Down => (p.x, size - 1 - p.y)
    case Left => (p.y, p.x)
    case Right => (p.y, size - 1 - p.x)
  }

  /** The `size` lines of a move visit every cell of the board exactly once.
      First half: offset `k` of line `l` is a cell of the board that `Locate`
      maps back to `(l, k)`, so no cell is visited twice. */
  lemma LinesStayOnBoard(d: Direction, size: nat, l: nat, k: nat)
    requires l < size && k < size
    ensures InRange(CellAt(d, size, l, k), size) && Locate(d, size, CellAt(d, size, l, k)) == (l, k)
  {
    CellAtClosed(d, size, l, k);
  }

  /** Second half: every cell of the board is visited, by the line and at
      the offset `Locate` gives. */
  lemma LinesReachEveryCell(d: Direction, size: nat, p: Pos)
    requires InRange(p, size)
    ensures var lk := Locate(d, size, p);
            0 <= lk.0 < size && 0 <= lk.1 < size && CellAt(d, size, lk.0, lk.1) == p
  {
    var lk := Locate(d, size, p);
    CellAtClosed(d, size, lk.0, lk.1);
  }

  /** The board cell at `p`, or `None` off the board. */
  function Lookup(b: seq<Option<Piece>>, size: nat, p: Pos): Option<Piece>
    requires |b| == size * size
  {
    if InRange(p, size) then b[ToIndex(p, size)] else None
  }

  /** The cells of the line that starts at `start`, in scan order. */
  function Cells(b: seq<Option<Piece>>, size: nat, start: Pos, along: Pos): (line: seq<Option<Piece>>)
    requires |b| == size * size
    ensures |line| == size
  {
    seq(size, (k: nat) => Lookup(b, size, Offset(start, along, k)))
  }

  function LineCells(b: seq<Option<Piece>>, size: nat, sw: LineTable, l: int): (line: seq<Option<Piece>>)
    requires |b| == size * size
    ensures |line| == size
  {
    Cells(b, size, LineStart(sw, l), sw.along)
  }

  /** A line instruction, placed on the board. */
  function ToMoveType(m: LineMove, start: Pos, along: Pos): MoveType
  {
    match m
    case Slide(j) => Move(Offset(start, along, j))
    case Absorb(j, s) => MoveDouble(Offset(start, along, j), s)
  }

  /** The instructions `update_line` inserts, cell by cell, for the given scan outputs. */
  function LineCommands(line: seq<Option<Piece>>, out: seq<Option<LineMove>>, start: Pos, along: Pos): seq<Insert>
    requires |out| == |line|
  {
    if line == [] then []
    else
      var n := |line| - 1;
      var m := LineCommands(line[..n], out[..n], start, along);
      if line[n].Some? && out[n].Some? then m + [Insert(line[n].value.entity, ToMoveType(out[n].value, start, along))]
      else m
  }

  /** The offsets of a line's occupied cells, in scan order. */
  function OccupiedOffsets(line: seq<Option<Piece>>): (ks: seq<nat>)
    ensures |ks| == Occupied(line)
    ensures forall i | 0 <= i < |ks| :: ks[i] < |line| && line[ks[i]].Some?
    ensures forall i, j | 0 <= i < j < |ks| :: ks[i] < ks[j]
    ensures forall k | 0 <= k < |line| && line[k].Some? :: k in ks
  {
    if line == [] then []
    else
      var n := |line| - 1;
      var ks := OccupiedOffsets(line[..n]);
      assert forall k | 0 <= k < n :: line[..n][k] == line[k];
      if line[n].Some? then ks + [n] else ks
  }

  /** `update_line` queues one instruction per occupied cell and none for an
      empty one, in scan order: the `i`-th instruction is for the tile in the
      `i`-th occupied cell and carries that cell's scan result. */
  lemma {:induction false} LineCommandsInOrder(line: seq<Option<Piece>>, out: seq<Option<LineMove>>, start: Pos, along: Pos)
    requires |out| == |line|
    requires forall k | 0 <= k < |line| :: out[k].Some? == line[k].Some?
    ensures var ks := OccupiedOffsets(line);
            var cmds := LineCommands(line, out, start, along);
            && |cmds| == |ks|
            && forall i | 0 <= i < |ks| ::
                 cmds[i] == Insert(line[ks[i]].value.entity, ToMoveType(out[ks[i]].value, start, along))
  {
    if line != [] {
      var n := |line| - 1;
      assert forall k | 0 <= k < n :: line[..n][k] == line[k] && out[..n][k] == out[k];
      LineCommandsInOrder(line[..n], out[..n], start, along);
    }
  }

  /** Coverage within a line: the instructions of a line are one per occupied
      cell, in scan order; the `i`-th names the tile of the `i`-th occupied
      cell and sends it to a cell of the same line no further from the leading
      edge than its own, by a `Move` when it survives and by a `MoveDouble`
      naming the survivor when it is absorbed. */
  lemma LineCoverage(b: seq<Option<Piece>>, size: nat, start: Pos, along: Pos)
    requires |b| == size * size
    ensures var line := Cells(b, size, start, along);
            var out := Scan(line).out;
            var ks := OccupiedOffsets(line);
            var cmds := LineMoves(b, size, start, along).inserts;
            && |cmds| == |ks|
            && forall i | 0 <= i < |ks| ::
                 && cmds[i].entity == line[ks[i]].value.entity
                 && out[ks[i]].Some?
                 && out[ks[i]].value.slot <= ks[i]
                 && cmds[i].move.target == Offset(start, along, out[ks[i]].value.slot)
                 && cmds[i].move.MoveDouble? == out[ks[i]].value.Absorb?
  {
    var line := Cells(b, size, start, along);
    var out := Scan(line).out;
    forall k | 0 <= k < |line|
      ensures out[k].Some? == line[k].Some?
      ensures out[k].Some? ==> out[k].value.slot <= k
    {
      ScanCoverage(line, k);
    }
    LineCommandsInOrder(line, out, start, along);
  }

  /** What a move produces: the queued instructions and the score gained. */
  datatype Moves = Moves(inserts: seq<Insert>, gain: int)

  /** The instructions and gain of the line that starts at `start`. */
  function LineMoves(b: seq<Option<Piece>>, size: nat, start: Pos, along: Pos): Moves
    requires |b| == size * size
  {
    var line := Cells(b, size, start, along);
    var scan := Scan(line);
    Moves(LineCommands(line, scan.out, start, along), scan.gain)
  }

  /** The instructions and gain of the first `n` lines of a move, in the order they are queued. */
  function SweepMoves(b: seq<Option<Piece>>, size: nat, sw: LineTable, n: nat): Moves
    requires |b| == size * size && n <= size
  {
    if n == 0 then Moves([], 0)
    else
      var m := SweepMoves(b, size, sw, n - 1);
      var line := LineMoves(b, size, LineStart(sw, n - 1), sw.along);
      Moves(m.inserts + line.inserts, m.gain + line.gain)
  }

  /** The state of `update_line`'s loop after `i` cells: `cur` is the next
      cell, and the stack, the outputs, the instructions and the gain are
      those of the scan of the first `i` cells. */
  ghost predicate UpdatedSoFar(board: seq<Option<Piece>>, size: nat, start: Pos, along: Pos, i: nat, cur: Pos,
                               stack: seq<Slot>, out: seq<Option<LineMove>>, cmds: seq<Insert>, gained: int)
    requires |board| == size * size
  {
    var line := Cells(board, size, start, along);
    && i <= size
    && cur == Offset(start, along, i)
    && Scan(line[..i]) == LineScan(stack, out, gained)
    && cmds == LineCommands(line[..i], out, start, along)
  }

  /** One pass of `update_line`'s loop keeps `UpdatedSoFar` once its scan state is `Step`'s. */
  lemma UpdatedStep(board: seq<Option<Piece>>, size: nat, start: Pos, along: Pos, i: nat, cur: Pos,
                    stack: seq<Slot>, out: seq<Option<LineMove>>, cmds: seq<Insert>, gained: int,
                    stack': seq<Slot>, o: Option<LineMove>, cmds': seq<Insert>, gained': int)
    requires |board| == size * size && i < size
    requires UpdatedSoFar(board, size, start, along, i, cur, stack, out, cmds, gained)
    requires var cell := Cells(board, size, start, along)[i];
             && LineScan(stack', out + [o], gained') == Step(LineScan(stack, out, gained), cell)
             && cmds' == if cell.Some? && o.Some? then cmds + [Insert(cell.value.entity, ToMoveType(o.value, start, along))] else cmds
    ensures UpdatedSoFar(board, size, start, along, i + 1, Pos(cur.x + along.x, cur.y + along.y), stack', out + [o], cmds', gained')
  {
    var line := Cells(board, size, start, along);
    ScanSnoc(line, i);
    LineCommandsSnoc(line, out, o, i, start, along);
    OffsetNext(start, along, i);
  }

  /** `update_line`: scan one line from its leading edge with the compaction
      stack, giving every occupied cell's tile its instruction, and return the
      instructions and the score the line's merges gain. */
  method UpdateLine(board: seq<Option<Piece>>, size: nat, start: Pos, along: Pos)
    returns (cmds: seq<Insert>, gained: int)
    requires |board| == size * size
    requires forall k | 0 <= k < size :: InRange(Offset(start, along, k), size)
    ensures Moves(cmds, gained) == LineMoves(board, size, start, along)
  {
    var cur := start;
    var stack: seq<Slot> := [];
    ghost var out: seq<Option<LineMove>> := [];
    cmds, gained := [], 0;
    for i := 0 to size
      invariant UpdatedSoFar(board, size, start, along, i, cur, stack, out, cmds, gained)
    {
      ghost var before := (stack, out, cmds, gained);
      var stackLen := |stack|;
      var cell := board[ToIndex(cur, size)];
      assert cell == Cells(board, size, start, along)[i];
      ghost var o: Option<LineMove> := None;
      if cell.Some? {
        var piece := cell.value;
        if stackLen > 0 {
          var last := stack[stackLen - 1];
          if last.piece.value == piece.value && !last.merged {
            var survivor := Slot(last.piece.(value := last.piece.value * 2), true);
            stack := stack[stackLen - 1 := survivor];
            assert stack == before.0[..stackLen - 1] + [survivor];
            var pos := Offset(start, along, stackLen - 1);
            o := Some(Absorb(stackLen - 1, last.piece.entity));
            cmds := cmds + [Insert(piece.entity, MoveDouble(pos, last.piece.entity))];
            gained := gained + stack[stackLen - 1].piece.value;
          } else {
            var pos := Offset(start, along, stackLen);
            o := Some(Slide(stackLen));
            cmds := cmds + [Insert(piece.entity, Move(pos))];
            stack := stack + [Slot(piece, false)];
          }
        } else {
          o := Some(Slide(0));
          cmds := cmds + [Insert(piece.entity, Move(start))];
          stack := stack + [Slot(piece, false)];
        }
      }
      UpdatedStep(board, size, start, along, i, cur, before.0, before.1, before.2, before.3, stack, o, cmds, gained);
      out := out + [o];
      cur := Pos(cur.x + along.x, cur.y + along.y);
    }
    assert Cells(board, size, start, along)[..size] == Cells(board, size, start, along);
  }

  /** Every cell of every line of `sw` is on the board. */
  predicate OnBoard(sw: LineTable, size: nat)
  {
    forall l, k | 0 <= l < size && 0 <= k < size :: InRange(Offset(LineStart(sw, l), sw.along, k), size)
  }

  lemma TableOnBoard(d: Direction, size: nat)
    ensures OnBoard(SweepOf(d, size), size)
  {
    forall l, k | 0 <= l < size && 0 <= k < size
      ensures InRange(Offset(LineStart(SweepOf(d, size), l), SweepOf(d, size).along, k), size)
    {
      CellAtClosed(d, size, l, k);
    }
  }

  lemma OffsetNext(start: Pos, along: Pos, k: int)
    ensures Offset(start, along, k + 1) == Pos(Offset(start, along, k).x + along.x, Offset(start, along, k).y + along.y)
  {
    assert along.x * (k + 1) == along.x * k + along.x;
    assert along.y * (k + 1) == along.y * k + along.y;
  }

  lemma ScanSnoc(line: seq<Option<Piece>>, i: int)
    requires 0 <= i < |line|
    ensures Scan(line[..i + 1]) == Step(Scan(line[..i]), line[i])
  {
    assert line[..i + 1][..i] == line[..i];
  }

  lemma LineCommandsSnoc(line: seq<Option<Piece>>, out: seq<Option<LineMove>>, o: Option<LineMove>, i: int,
                         start: Pos, along: Pos)
    requires 0 <= i < |line| && |out| == i
    ensures var m := LineCommands(line[..i], out, start, along);
            LineCommands(line[..i + 1], out + [o], start, along) ==
              if line[i].Some? && o.Some? then m + [Insert(line[i].value.entity, ToMoveType(o.value, start, along))] else m
  {
    assert line[..i + 1][..i] == line[..i];
    assert (out + [o])[..i] == out;
  }

  lemma SweepStep(b: seq<Option<Piece>>, size: nat, sw: LineTable, l: nat, start: Pos,
                  cmds: seq<Insert>, gained: int, lineCmds: seq<Insert>, lineGain: int)
    requires |b| == size * size && l < size && start == LineStart(sw, l)
    requires Moves(cmds, gained) == SweepMoves(b, size, sw, l)
    requires Moves(lineCmds, lineGain) == LineMoves(b, size, start, sw.along)
    ensures Moves(cmds + lineCmds, gained + lineGain) == SweepMoves(b, size, sw, l + 1)
  {
  }

  /** `process_move`: pick the direction's row of the table and run
      `update_line` on each of the `size` lines; the instructions and the
      gain are those of the whole sweep. */
  method ProcessMove(board: seq<Option<Piece>>, size: nat, d: Direction)
    returns (cmds: seq<Insert>, gained: int)
    requires |board| == size * size
    ensures Moves(cmds, gained) == SweepMoves(board, size, SweepOf(d, size), size)
  {
    TableOnBoard(d, size);
    cmds, gained := SweepLines(board, size, SweepOf(d, size));
  }

  /** The loop of `process_move` over the lines of one row of the table. */
  method SweepLines(board: seq<Option<Piece>>, size: nat, sweep: LineTable)
    returns (cmds: seq<Insert>, gained: int)
    requires |board| == size * size && OnBoard(sweep, size)
    ensures Moves(cmds, gained) == SweepMoves(board, size, sweep, size)
  {
    var cur := sweep.start;
    cmds, gained := [], 0;
    for l := 0 to size
      invariant cur == LineStart(sweep, l)
      invariant Moves(cmds, gained) == SweepMoves(board, size, sweep, l)
    {
      var lineCmds, lineGain := UpdateLine(board, size, cur, sweep.along);
      SweepStep(board, size, sweep, l, cur, cmds, gained, lineCmds, lineGain);
      cmds := cmds + lineCmds;
      gained := gained + lineGain;
      OffsetNext(sweep.start, sweep.across, l);
      cur := Pos(cur.x + sweep.across.x, cur.y + sweep.across.y);
    }
  }

  // ---------------------------------------------------------------------
  // The whole move

  /** The tiles a list of inserts names. */
  function Entities(cmds: seq<Insert>): (es: set<Entity>)
    ensures forall j | 0 <= j < |cmds| :: cmds[j].entity in es
    ensures forall e | e in es :: exists j | 0 <= j < |cmds| :: cmds[j].entity == e
  {
    set ins | ins in cmds :: ins.entity
  }

  /** Every instruction of a line of `sw` sends its tile to a cell of the board. */
  lemma LineTargetsOnBoard(b: seq<Option<Piece>>, size: nat, sw: LineTable, l: nat)
    requires |b| == size * size && OnBoard(sw, size) && l < size
    ensures forall ins | ins in LineMoves(b, size, LineStart(sw, l), sw.along).inserts :: InRange(ins.move.target, size)
  {
    var start := LineStart(sw, l);
    var line := Cells(b, size, start, sw.along);
    var ks := OccupiedOffsets(line);
    var cmds := LineMoves(b, size, start, sw.along).inserts;
    LineCoverage(b, size, start, sw.along);
    forall ins | ins in cmds
      ensures InRange(ins.move.target, size)
    {
      var i :| 0 <= i < |cmds| && cmds[i] == ins;
      var slot := Scan(line).out[ks[i]].value.slot;
      assert slot < size;
      assert InRange(Offset(LineStart(sw, l), sw.along, slot), size);
    }
  }

  /** Every instruction of a move sends its tile to a cell of the board. */
  lemma {:induction false} SweepOnBoard(b: seq<Option<Piece>>, size: nat, sw: LineTable, n: nat)
    requires |b| == size * size && OnBoard(sw, size) && n <= size
    ensures forall ins | ins in SweepMoves(b, size, sw, n).inserts :: InRange(ins.move.target, size)
  {
    if n > 0 {
      SweepOnBoard(b, size, sw, n - 1);
      LineTargetsOnBoard(b, size, sw, n - 1);
    }
  }

  /** The instructions of each of the first `n` lines are among those of the sweep. */
  lemma {:induction false} SweepIncludesLines(b: seq<Option<Piece>>, size: nat, sw: LineTable, n: nat, l: nat)
    requires |b| == size * size && l < n <= size
    ensures forall ins | ins in LineMoves(b, size, LineStart(sw, l), sw.along).inserts ::
              ins in SweepMoves(b, size, sw, n).inserts
  {
    if l < n - 1 {
      SweepIncludesLines(b, size, sw, n - 1, l);
    }
  }

  /** The tile at offset `k` of line `l` receives an instruction. */
  lemma CellCovered(b: seq<Option<Piece>>, size: nat, sw: LineTable, l: nat, k: nat)
    requires |b| == size * size && l < size && k < size
    requires Lookup(b, size, Offset(LineStart(sw, l), sw.along, k)).Some?
    ensures Lookup(b, size, Offset(LineStart(sw, l), sw.along, k)).value.entity in Entities(SweepMoves(b, size, sw, size).inserts)
  {
    var start := LineStart(sw, l);
    var line := Cells(b, size, start, sw.along);
    var cell := Lookup(b, size, Offset(start, sw.along, k));
    assert line[k] == cell;
    var ks := OccupiedOffsets(line);
    assert k in ks;
    var m :| 0 <= m < |ks| && ks[m] == k;
    LineCoverage(b, size, start, sw.along);
    var lineCmds := LineMoves(b, size, start, sw.along).inserts;
    assert lineCmds[m].entity == cell.value.entity;
    SweepIncludesLines(b, size, sw, size, l);
    assert lineCmds[m] in SweepMoves(b, size, sw, size).inserts;
  }

  /** Every cell of the board is on some line of `sw`. */
  ghost predicate Reaches(sw: LineTable, size: nat)
  {
    forall p | InRange(p, size) :: exists l, k | 0 <= l < size && 0 <= k < size :: Offset(LineStart(sw, l), sw.along, k) == p
  }

  lemma TableReaches(d: Direction, size: nat)
    ensures Reaches(SweepOf(d, size), size)
  {
    forall p | InRange(p, size)
      ensures exists l, k | 0 <= l < size && 0 <= k < size :: Offset(LineStart(SweepOf(d, size), l), SweepOf(d, size).along, k) == p
    {
      LinesReachEveryCell(d, size, p);
      var l, k := Locate(d, size, p).0, Locate(d, size, p).1;
      assert Offset(LineStart(SweepOf(d, size), l), SweepOf(d, size).along, k) == p;
    }
  }

  /** A sweep whose lines reach every cell gives an instruction to the tile of every occupied cell. */
  lemma SweepCoversBoard(b: seq<Option<Piece>>, size: nat, sw: LineTable)
    requires |b| == size * size && size > 0 && Reaches(sw, size)
    ensures forall i | 0 <= i < |b| && b[i].Some? :: b[i].value.entity in Entities(SweepMoves(b, size, sw, size).inserts)
  {
    forall i | 0 <= i < |b| && b[i].Some?
      ensures b[i].value.entity in Entities(SweepMoves(b, size, sw, size).inserts)
    {
      var p := ToPos(i, size);
      IndexPosRoundTrip(i, size);
      var l, k :| 0 <= l < size && 0 <= k < size && Offset(LineStart(sw, l), sw.along, k) == p;
      assert Lookup(b, size, p) == b[i];
      CellCovered(b, size, sw, l, k);
    }
  }

  /** Coverage of the board: a move gives an instruction to the tile of every
      occupied cell, whatever the direction, and every target is on the board. */
  lemma MoveCoversBoard(b: seq<Option<Piece>>, size: nat, d: Direction)
    requires |b| == size * size && size > 0
    ensures var cmds := SweepMoves(b, size, SweepOf(d, size), size).inserts;
            && (forall i | 0 <= i < |b| && b[i].Some? :: b[i].value.entity in Entities(cmds))
            && (forall ins | ins in cmds :: InRange(ins.move.target, size))
  {
    TableOnBoard(d, size);
    TableReaches(d, size);
    SweepOnBoard(b, size, SweepOf(d, size), size);
    SweepCoversBoard(b, size, SweepOf(d, size));
  }
}
