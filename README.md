# 2048 turn resolution, modelled in Dafny

This project models the turn-resolution core of a Bevy 2048 clone (`src/main.rs`). It has six modules:

- `Grid` (`grid.dfy`) covers the flat row-major board of `size * size` cells, `Piece`, and `to_index`/`to_pos`.
- `Line` (`line.dfy`) models `update_line`'s decision rule as a fold over one line's cells. The fold keeps the same `(piece, merged)` compaction stack as the source. `MergePairs` is an independent front-to-back reference definition of the merge rule.
- `Sweep` (`sweep.dfy`) covers `process_move`'s direction table and the `size` lines it sweeps. `UpdateLine` (the loop over one line's cells) and `SweepLines` (the loop over the lines) are the imperative loops, and `ProcessMove` picks the direction's table row and calls `SweepLines`. Each loop is proved equal to a function that specifies it, and coverage is proved over the whole board.
- `Spawn` (`spawn.dfy`) covers `add_piece_event`'s choice of cells:
  - the empty cells are collected once;
  - every new tile removes a random entry of that list;
  - the value is 4 on a one-in-ten coin, otherwise 2;
  - the tile is written into the board array.
- `GameEnd` (`game_end.dfy`) covers `check_game_end`'s nested loops and the property they decide.
- `Game` (`game.dfy`) is the turn state machine.
  - It is a class holding:
    - the `Board` resource, as an array;
    - the live tiles' `Value`/`Pos` components, as a map from entity;
    - the pending `MoveType` components, as a map;
    - the `AppState` phase;
    - `Score`, `ScoreToAdd` and `HighScore`.
  - Each system of the schedule is a method, and each event is a method call:
    - a `MoveEvent` runs `set_board` and then `process_move` (`Move`);
    - a `TweenCompleted` event is `AnimCompleted`;
    - `check_anim_end` is `CheckAnimEnd`; on entering `PostAnim` it runs `set_board` and then `post_anim`;
    - a `NewGameEvent` is `NewGame`;
    - the `AddPieceEvent` chain runs `add_piece_event` and then `check_game_end` (`AddPiece`).
  - `AddPieceEvent` counts accumulate in a `requested` field.
  - Bevy entities are natural numbers taken from a counter.
  - The random number generator is an oracle: the caller passes one `Roll` (a pick and a coin) per requested tile.

The board side is `Config::size`, which is 4 in the source (`src/main.rs:612-620`). The model takes any positive size.

`add_piece_event` assumes that no more tiles are requested than there are empty cells. Once the list of empty cells is used up, `gen_range(0..empties.len())` becomes `gen_range(0..0)`, which panics (`src/main.rs:306`). The model makes this a precondition: `RollsFit` allows at most one roll per empty cell, and each pick must fall inside the shrinking list.

## Model

| member | source | states |
|---|---|---|
| Grid.ToIndex | src/main.rs:323-325 | An in-range position maps to a cell of the board. |
| Grid.ToPos | src/main.rs:326-328 | A cell of the board maps to an in-range position. |
| Grid.PosIndexRoundTrip | src/main.rs:323-328 | `to_pos(to_index(p)) == p` for every in-range `p`. |
| Grid.IndexPosRoundTrip | src/main.rs:323-328 | `to_index(to_pos(i)) == i` for every `0 <= i < size*size`. |
| Grid.ToIndexInjective | src/main.rs:323-325 | Distinct in-range positions occupy distinct cells. |
| Line.Scan | src/main.rs:232-272 | The scan yields one output per cell, and its stack is never longer than the line. |
| Line.MergePairs | src/main.rs:237-254 | The merged line is never longer than the input, and is non-empty when the input is. |
| Line.MergePairsSnoc | src/main.rs:237-254 | Appending a value merges it with the last merged value exactly when that value is equal and still open; otherwise the value is appended. The gain grows by the doubled value only on a merge. |
| Line.ScanMatchesMergePairs | src/main.rs:232-254 | The stack's values after `update_line`'s scan are exactly the reference merge of the line's values. The top is open iff the reference leaves the last value unpaired. The gain equals the reference gain. |
| Line.StepAgrees | src/main.rs:233-254 | One loop iteration on an occupied cell keeps the scan in agreement with the reference merge. |
| Line.MergeAgrees | src/main.rs:237-245 | The merge branch (equal value, top not yet merged) doubles the top slot, closes it, and adds the doubled value to the gain, as the reference does. |
| Line.PushAgrees | src/main.rs:246-254 | The push branches (empty stack, different value, or top already merged) open a new slot holding the tile, as the reference does. |
| Line.ScanTracks | src/main.rs:232-254 | Every prefix scan keeps the per-cell invariants: instructions only for occupied cells, targets no further than the cell, slide and absorb semantics, increasing slots, every slot opened by a slide. |
| Line.ScanCoverage | src/main.rs:233-254 | A cell gets an instruction iff it is occupied. The target slot is at most the cell's own offset and inside the final stack. |
| Line.ScanAbsorb | src/main.rs:237-245 | An absorbed tile names the tile holding its slot as survivor. That slot is marked merged and holds twice the absorbed value. No other tile is absorbed into the same slot (one merge per slot). |
| Line.ScanSlides | src/main.rs:246-254 | Sliding tiles take strictly increasing slots in scan order, so survivors keep their order. Every final slot is the target of a slide. Each slot holds the tile that slid there, with its value doubled once if it absorbed. |
| Line.ScanCount | src/main.rs:233-254 | Slots left = occupied cells minus merges, packed at offsets `0..k-1`. |
| Line.ScanGain | src/main.rs:239-245 | The line's gain is the sum of the newly doubled values. |
| Line.MergeGains | src/main.rs:237-245 | Absorbing a tile into an equal, unmerged top keeps the gain equal to the sum of the doubled values. |
| Line.PushGains | src/main.rs:246-254 | Stacking a tile that does not merge keeps the gain equal to the sum of the doubled values. |
| Line.ScanConserves | src/main.rs:237-254 | The line's total tile value is conserved. |
| Line.MergeRuleExamples | src/main.rs:237-254 | No chain merges: `[2,2,2]` gives `[4,2]` and `[2,2,4]` gives `[4,4]`, with the instructions queued and a gain of 4. |
| Sweep.CellAtClosed | src/main.rs:160-194 | Offset `k` of line `l` per direction: the columns for up/down, the rows for left/right, and from the far edge for down/right. |
| Sweep.LinesStayOnBoard | src/main.rs:160-194 | Every visited cell is on the board, and no cell is visited twice. |
| Sweep.LinesReachEveryCell | src/main.rs:160-194 | Every cell of the board is visited, at the line and offset `Locate` gives. |
| Sweep.TableOnBoard | src/main.rs:160-181 | Every row of the direction table keeps all `size` lines on the board. |
| Sweep.LineCommandsInOrder | src/main.rs:233-254 | One insert per occupied cell, in scan order, none for empty cells. |
| Sweep.LineCoverage | src/main.rs:222-254 | The `i`-th insert is for the tile of the `i`-th occupied cell. Its target is on the same line, no further from the leading edge than the tile. It is a `MoveDouble` exactly when the tile is absorbed. |
| Sweep.UpdateLine | src/main.rs:222-272 | The imperative loop queues exactly the inserts and the gain that `LineMoves` gives for the line. |
| Sweep.SweepLines | src/main.rs:182-194 | The loop over lines queues the concatenation of the lines' inserts and sums their gains. |
| Sweep.ProcessMove | src/main.rs:147-197 | A move queues exactly the inserts and the gain of its direction's sweep. |
| Sweep.LineTargetsOnBoard | src/main.rs:233-254 | Every target of a line's instructions is a cell of the board. |
| Sweep.SweepOnBoard | src/main.rs:182-194 | Every target of a whole move is a cell of the board. |
| Sweep.SweepIncludesLines | src/main.rs:182-194 | Every line's inserts are among the move's inserts. |
| Sweep.CellCovered | src/main.rs:182-194 | The tile at offset `k` of line `l` gets an instruction in the move. |
| Sweep.TableReaches | src/main.rs:160-194 | Every board cell lies on one of the direction's lines. |
| Sweep.SweepCoversBoard | src/main.rs:182-194 | Every tile on the board is named by some insert of the sweep. |
| Sweep.MoveCoversBoard | src/main.rs:147-197 | For every direction, every tile on the board gets an instruction and every target is on the board. |
| Spawn.NewValue | src/main.rs:307 | A new tile is 2 or 4, and it is 4 exactly when the coin shows 0. |
| Spawn.Empties | src/main.rs:294-299 | The list holds exactly the empty cells, in increasing board order. |
| Spawn.Remove | src/main.rs:306 | `Vec::remove`: the entries before `i` are kept, and the ones after shift down by one. |
| Spawn.Draw | src/main.rs:304-306 | `n` rolls make `n` picks and leave `n` fewer cells in the list. |
| Spawn.RemoveOne | src/main.rs:306 | Removing an entry from a list of distinct cells removes exactly that cell. |
| Spawn.DrawDistinct | src/main.rs:294-306 | Picks never repeat; all come from the empty list, and none is left in it. |
| Spawn.PlaceEffect | src/main.rs:403-407 | Writing the tiles at distinct picked cells puts each tile in its cell and leaves every other cell unchanged. |
| Spawn.SpawnPolicy | src/main.rs:294-321 | With no empty cell nothing changes. Otherwise each requested tile lands in its own previously empty cell, at that cell's position, valued 2 or 4, with a fresh handle. No occupied cell changes, and every cell that receives no tile keeps its content. |
| Spawn.AddPieceEvent | src/main.rs:284-321 | The array method leaves the board and the spawned tiles that `AddPieces` specifies. |
| Spawn.CollectEmpties | src/main.rs:294-299 | The loop collects exactly the empty cells, in board order. |
| Spawn.DrawPieces | src/main.rs:304-320 | The loop removes picks from the list and writes each tile into the board array. The result is exactly what `AddPieces` gives. |
| GameEnd.AllPairsTried | src/main.rs:535-553 | Trying the four `dirs` from every cell tries every pair of orthogonal neighbours. |
| GameEnd.EqualAround | src/main.rs:538-552 | The inner loop finds an equal neighbour iff one of the four neighbours on the board holds a tile of the same value. |
| GameEnd.CheckGameEnd | src/main.rs:527-557 | The game is over iff every cell is occupied and no two orthogonal neighbours share a value. |
| Game.InputEvents | src/main.rs:199-221 | A move is requested iff the phase is `Input` and a direction key was pressed; it is the first pressed in the order up, left, down, right. A reset is requested iff R was pressed in `Input` or `GameOver`. |
| Game.Applied | src/main.rs:240-253 | The `MoveType` components after the inserts: exactly the named tiles carry one, each taken from an insert for that tile. |
| Game.TilesOf | src/main.rs:390-407 | Every spawned tile becomes live, with its value and position. |
| Game.Instructions | src/main.rs:147-197 | After a move every tile on the board carries an instruction, and every target is on the board. |
| Game.SpawnedTilesValid | src/main.rs:304-319 | Spawned tiles have fresh handles and lie on the board. |
| Game.World.constructor | src/main.rs:92-146 | `setup`, then `start_game` (`src/main.rs:559-561`): an empty board, scores 0, two tiles requested, phase `Input`. |
| Game.World.SetBoard | src/main.rs:410-422 | The board holds exactly the live tiles at their cells. Every other cell is empty. With distinct positions, each tile's cell holds that tile. |
| Game.World.Move | src/main.rs:70-75 | A `MoveEvent`: the board is rebuilt, every tile on it gets an instruction, the gain grows by the move's merges, and the phase becomes `Anim`. |
| Game.World.ProcessMoveSystem | src/main.rs:147-197 | `process_move` on the rebuilt board: the instructions are added, the gain grows by the sweep's gain, the phase becomes `Anim`, and tiles and scores are unchanged. |
| Game.World.AnimCompleted | src/main.rs:432-462 | A completion for a tile without an instruction is ignored. A `Move` commits the target position. A `MoveDouble` doubles a live survivor and despawns the tile. The instruction is dropped. |
| Game.World.PostAnimate | src/main.rs:493-505 | `score += gain`, `gain = 0`, `high = max(high, score)`; hence `high >= score` and `high` never decreases. One tile is requested and the phase becomes `Input`. |
| Game.World.CheckAnimEnd | src/main.rs:423-430 | `Anim` gives way to `PostAnim` (then `set_board` and `post_anim`) only when no tile carries an instruction. Otherwise nothing changes. |
| Game.World.NewGame | src/main.rs:507-525 | The board is emptied, all tiles despawned, score 0, two tiles requested, phase `Input`. Gain and high score are kept. |
| Game.World.AddPiece | src/main.rs:84-89 | The `AddPieceEvent` chain: the tiles are spawned as `add_piece_event` specifies; then the phase becomes `GameOver` iff the board is stuck. |
| Game.World.SpawnTiles | src/main.rs:284-321 | The board and live tiles grow by exactly the spawned tiles, with fresh handles. |
| Game.World.CheckGameEndSystem | src/main.rs:527-557 | The phase becomes `GameOver` iff the board is full with no equal neighbours. Otherwise it is unchanged. |

## Left out

- Rendering, assets, tweens, `pos_to_world`, `create_board`, `set_value_event` and the sprite and text parts of `create_piece`: these are screen output only. Animation timing is replaced by explicit `AnimCompleted` calls.
- `src/ui.rs`: presentation only. Its New Game button sends `NewGameEvent` in any phase; this is why `Game.World.NewGame` has no phase precondition.
- The Bevy schedule: system ordering within a frame, `apply_deferred`, event buffering and `NextState`'s one-frame delay. Each system is a method, and a phase change takes effect at once.
- Deferred `Commands`: instruction inserts and despawns take effect immediately in the model.
- Unread `AddPieceEvent`s are dropped. When the board is full, `add_piece_event` returns without reading its events, and Bevy discards them after two frames. The model sets `requested` to 0 at once.
- The random number generator: it is an oracle (`Roll`s), so uniformity is not modelled.
- `i32` arithmetic: values and scores are unbounded integers. The source would overflow only beyond 2^31, which play cannot reach on a 4 by 4 board.
- `Game.Applied`: says each instruction comes from an insert for its tile, not that it comes from the last such insert. Within one move no tile gets two inserts: a line gives one insert per occupied cell (`Sweep.LineCommandsInOrder`), no cell lies on two lines (`Sweep.LinesStayOnBoard`), and a tile occupies only the cell of its own position (`Game.World.BoardMatchesTiles`). This move-level fact is argued here, not proved as a lemma.
- `Game.World.SetBoard`: places each tile exactly only when live tiles have distinct positions. The model does not prove that a sequence of moves and completions keeps positions distinct.
- Kept quirks of the source:
  - a tile is requested after every move, even one that changes nothing;
  - a new game resets `Score` but keeps `ScoreToAdd` and `HighScore`;
  - the spawn count must not exceed the number of empty cells.
