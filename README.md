# tstris engine in Dafny

A model of the game-state engine of tstris, a headless falling-block game.
The board is a grid of cell labels, with `""` meaning empty. A falling piece
has a position and a lock counter. The engine keeps a next-queue and a hold
slot, and counts score, cleared rows and level. The model is proved against
specifications written as functions over the same state.

Two revisions of the engine are modelled:

- **The compiled bundle** `packages/tstris-core/lib/index.js`, modules
  `Engine`, `WallKick` and `Queue`. This is the complete engine. `Player`
  owns the live piece (shape and type), its position, the lock counter
  `collided`, the hold slot and the next-queue. `Tstris` owns the board, the
  tallies, the status and the `holdUsed` flag.
- **The TypeScript sources** `packages/tstris-core/src/Tstris/Tstris.ts` and
  `src/Tstris/Player/Player.ts`, modules `SrcTstris` and `SrcPlayer`. This
  is an earlier snapshot. Its player holds a bare shape and piece-type keys.
  It has no lock counter, and its `hold` is a stub.

Shared pieces:

- `Grid` holds the board algorithms: the meaning of the collision test,
  stamping a piece onto a copy of the board, and clearing full rows.
- `Pieces` holds the 90-degree rotation and the default catalog.
- `Config` holds the options and their defaults.
- `Optional` holds an `Option` type.

Modelling choices:

- **Classes.** Both `Player` classes and both `Tstris` classes are Dafny
  classes. Their methods update fields under field-level `modifies` frames.
- **Value semantics.** Boards, shapes and queues are values. The source's
  deep copies (`getBoard`, `row.slice(0)`, the shape copy in
  `getRandomPiece`) leave nothing to alias, so "the input is not mutated"
  holds by construction.
- **Specification functions.** Each state-changing method is tied to
  functions of the old state:
  - `Player.DropPos`, `DropCount` and `DropOver` describe `drop`;
  - `Player.Moved` describes `moveHorizontal`;
  - `Player.RotatedPiece` and `RotatedPos`, built on `WallKick.Kick`,
    describe `rotatePiece`;
  - `Player.PulledPiece` and `QueueAfterPull` describe `getNextPiece`;
  - `Tstris.AfterLock` is the whole effect of locking a piece.

  Lemmas then state what those functions mean: first-fit wall kicks,
  rotation inverses, FIFO queues, and the row-clear layout.
- **Randomness.** Random draws come from an oracle `rand: nat -> nat`. The
  k-th draw of a player takes catalog entry `rand(k) % |catalog|`, and the
  player counts its draws.
- **Policies.** The user-supplied score and level policies are
  function-valued parameters of the game. Their defaults are
  `Config.DefaultScoreFunction` and `Config.DefaultLevelFunction`.

Two behaviours of the code a reader may not expect:

- A successful `drop` does not reset the lock counter. `updatePos` adds 0 to
  it (index.js:126-129, 138), so only `resetPlayer` and `reset` zero it.
- Rotation inverts and cycles only for square shapes. `rotate` transposes
  using the row count for both dimensions (index.js:131), so wider shapes
  lose columns (`Pieces.RotateDropsExtraColumns`). In a taller shape the
  transpose reads past the end of the shorter rows, and the resulting
  `undefined` cells count as solid: they collide (index.js:150) and are
  written into the board (index.js:305).

## Model

| member | source | states |
|---|---|---|
| Grid.Blank | packages/tstris-core/lib/index.js:435-437 | a row of `width` cells, all empty |
| Grid.DefaultBoard | packages/tstris-core/lib/index.js:435-437 | generateDefaultBoard: `height` rows of `width` cells, every cell empty |
| Grid.StampPiece | packages/tstris-core/lib/index.js:300-310 | the nested stamping loop computes Overlay: each in-board cell under a non-empty piece cell holds that label, every other cell keeps the board's |
| Grid.OverlayKeepsUncovered | packages/tstris-core/src/Tstris/Tstris.ts:189-205 | a board cell that no non-empty piece cell covers is unchanged by stamping |
| Grid.OverlayOnlyFillsEmpty | packages/tstris-core/lib/index.js:300-310 | stamping a non-colliding piece never overwrites a placed label; every piece cell lands on an empty in-board cell |
| Grid.OverlayBlocksPiece | packages/tstris-core/lib/index.js:147-158 | after stamping, a piece with a cell collides at the position it was stamped at |
| Grid.OverlayEmptyShape | packages/tstris-core/lib/index.js:300-310 | a shape without non-empty cells leaves the board unchanged (the reset placeholder `[[]]`) |
| Grid.ClearFullRows | packages/tstris-core/lib/index.js:396-409 | the reduce with unshift/push yields ClearRows and collects exactly FullRows |
| Grid.KeptAndFullPartition | packages/tstris-core/lib/index.js:396-409 | every row is either kept or cleared: kept plus full = row count |
| Grid.FullRowsExact | packages/tstris-core/lib/index.js:396-409 | the recorded indices are exactly the full rows, in ascending order |
| Grid.KeptNotFull | packages/tstris-core/lib/index.js:399-405 | no kept row is full |
| Grid.KeptAll | packages/tstris-core/lib/index.js:396-409 | without full rows every row is kept and none is recorded |
| Grid.ClearRowsShape | packages/tstris-core/src/Tstris/Tstris.ts:281-303 | the row count is preserved, the first k rows are empty rows of row 0's width, and the rest are the non-full rows in order |
| Grid.ClearRowsNoFull | packages/tstris-core/src/Tstris/Tstris.ts:281-303 | a board without full rows is returned unchanged |
| Grid.ClearRowsIdempotent | packages/tstris-core/lib/index.js:396-434 | clearing a cleared board changes nothing (given row 0 is non-empty) |
| Pieces.Opposite | packages/tstris-core/lib/index.js:120 | the reverting direction differs from the rotation direction |
| Pieces.Reverse | packages/tstris-core/lib/index.js:133-134 | `reverse()` yields the elements in reverse order |
| Pieces.Rotate | packages/tstris-core/lib/index.js:130-135 | rotation yields an n-by-n grid, n the row count |
| Pieces.RotateCell | packages/tstris-core/lib/index.js:130-135 | cell (i, j) of the result is cell (n-1-j, i) of the input for right, and (j, n-1-i) for left |
| Pieces.RotateSquare | packages/tstris-core/lib/index.js:130-135 | a square shape stays square, and a shape labelled with its own key stays so |
| Pieces.RotateInverse | packages/tstris-core/src/Tstris/Player/Player.ts:53-59 | for a square shape, rotating one way and then the other gives back the exact input |
| Pieces.HalfTurnCell | packages/tstris-core/lib/index.js:130-135 | two turns the same way map cell (i, j) to (n-1-i, n-1-j) |
| Pieces.HalfTurn | packages/tstris-core/lib/index.js:130-135 | two turns the same way are the half turn, for every cell |
| Pieces.RotateFour | packages/tstris-core/lib/index.js:130-135 | four rotations the same way give back a square input |
| Pieces.RotateDropsExtraColumns | packages/tstris-core/lib/index.js:131 | a one-row shape of two cells rotates to one cell: columns beyond the row count are lost |
| Pieces.RotateIPiece | packages/tstris-core/src/Tstris/Player/Player.test.ts:22-41 | the spawn I piece rotated right fills exactly column 2, and rotated left exactly column 1 |
| Pieces.ShapeOf | packages/tstris-core/src/Tstris/Player/Player.ts:42 | `pieceTypes[key].shape` is the shape of an entry with that key |
| Pieces.ShapeOfEntry | packages/tstris-core/src/Tstris/Player/Player.ts:22 | with distinct keys, looking up an entry's key gives back that entry's shape |
| Pieces.DefaultCatalogWellFormed | packages/tstris-core/lib/index.js:186-236 | the seven default pieces have distinct keys and square shapes whose cells carry their own key |
| WallKick.OffsetStep | packages/tstris-core/lib/index.js:117-119 | one loop step moves from try k to try k+1 (offsets 1, -2, 3, ...), and the loop gives up exactly after the last try |
| WallKick.FirstFit | packages/tstris-core/lib/index.js:116-124 | the reference search's answer lies between its start and the number of tries |
| WallKick.FirstFitScans | packages/tstris-core/lib/index.js:116-124 | every try before the answer collides, and the answer, if not the end, fits |
| WallKick.KickIsFirstFit | packages/tstris-core/lib/index.js:112-125 | the ping-pong loop ends at the first-fit column, or gives up exactly when no try fits |
| WallKick.KickSearch | packages/tstris-core/lib/index.js:112-125 | a found column is collision-free and the first that fits in the order x, x+1, x-1, x+2, ...; giving up means every try collides |
| WallKick.KickGivesUp | packages/tstris-core/lib/index.js:112-125 | giving up means every column in the window around the start collides |
| Queue.Holes | packages/tstris-core/lib/index.js:66 | `Array(n)`: n slots, all holes |
| Queue.Shifted | packages/tstris-core/lib/index.js:166-168 | shift-then-push keeps a queue of the configured size at that size, and a hole-free queue hole-free |
| Queue.ShiftMovesForward | packages/tstris-core/lib/index.js:165-175 | with size N > 0 every slot moves forward by one and the refill is last; the front is returned; with N = 0 the queue stays empty and the fallback is returned |
| Queue.QueueIsFifo | packages/tstris-core/lib/index.js:165-175 | over any run of pulls, pieces come out in the order they went in, and the queue holds the next N of them |
| Config.DefaultOptionsValid | packages/tstris-core/lib/index.js:246-258 | the defaults are a valid configuration with a 20 by 10 empty board and spawn column 3 |
| Engine.Draw | packages/tstris-core/lib/index.js:176-182 | a random piece is a copy of some catalog entry's shape, tagged with that entry's key |
| Engine.FreeRowOnBoard | packages/tstris-core/lib/index.js:151 | a free position of a shape with a cell is above the bottom of the board |
| Engine.NoCellNeverCollides | packages/tstris-core/lib/index.js:147-158 | a shape with no non-empty cell collides at no position, so drop never blocks it |
| Engine.LandingRowRests | packages/tstris-core/lib/index.js:325-333 | the landing row is at or below the start, the piece rests on a blocked cell there, and every row on the way is free |
| Engine.Player.constructor | packages/tstris-core/lib/index.js:61-68 | zero counter, a queue of N holes, position (0, 0), no live or held piece |
| Engine.Player.GetRandomPiece | packages/tstris-core/lib/index.js:176-182 | the result is the next draw, a copy of some catalog entry |
| Engine.Player.Start | packages/tstris-core/lib/index.js:69-78 | spawn position and a drawn live piece; every queue slot is filled, slot i with draw i+1 |
| Engine.Player.Reset | packages/tstris-core/lib/index.js:79-86 | empty hold slot, N holes, placeholder `[[]]` piece, spawn position, zero counter |
| Engine.Player.ResetPlayer | packages/tstris-core/lib/index.js:87-92 | spawn position and zero counter; unless after a hold, the live piece is the pulled piece and the queue is shifted |
| Engine.Player.Hold | packages/tstris-core/lib/index.js:93-111 | disabled: nothing changes; empty slot: bank the piece and pull; otherwise swap; resetOnHold: spawn position with a zero counter |
| Engine.Player.RotatePiece | packages/tstris-core/lib/index.js:112-125 | the result is the rotated piece at its kick column, or the unchanged piece and position; the row never changes; the piece never ends colliding unless it is unchanged |
| Engine.Player.KickRotated | packages/tstris-core/lib/index.js:114-124 | the loop ends at Kick's column with a collision-free piece, or restores the original shape and starting column when Kick gives up |
| Engine.Player.UndoRotation | packages/tstris-core/lib/index.js:120 | rotating back the other way restores the original shape |
| Engine.Player.UpdatePos | packages/tstris-core/lib/index.js:126-129 | the position moves by (dx, dy) and the counter is incremented by dc, never reset |
| Engine.Player.Drop | packages/tstris-core/lib/index.js:136-146 | not blocked: one row down with the counter unchanged; blocked at y < 1: game over with nothing changed; blocked lower: counter + 1; a move never enters a collision |
| Engine.Player.CheckCollision | packages/tstris-core/lib/index.js:147-158 | true iff some non-empty piece cell at the offset position is off the board or on a non-empty cell |
| Engine.Player.MoveHorizontal | packages/tstris-core/lib/index.js:159-164 | x shifts by exactly one column when that column is free, otherwise nothing changes; the counter is untouched |
| Engine.Player.GetNextPiece | packages/tstris-core/lib/index.js:165-175 | returns the former front (or a fresh draw for a hole), shifts the queue and pushes a draw when N > 0 |
| Engine.Tstris.constructor | packages/tstris-core/lib/index.js:260-274 | the initial board, start level, zero tallies, idle status, hold available, a fresh player on the same board |
| Engine.Tstris.Start | packages/tstris-core/lib/index.js:275-279 | the player is started (spawn position, draw k live, slot i holding draw k+1+i, N+1 draws taken) and the status is playing |
| Engine.Tstris.End | packages/tstris-core/lib/index.js:280-285 | without reset: ended, with player and board unchanged; with reset: idle, the initial board and a reset player |
| Engine.Tstris.Reset | packages/tstris-core/lib/index.js:286-290 | idle, the initial board and a reset player |
| Engine.Tstris.GetBoardWithPlayer | packages/tstris-core/lib/index.js:300-310 | the board with the live piece stamped on it, or the board itself when there is none |
| Engine.Tstris.SetBoard | packages/tstris-core/lib/index.js:352-355 | game and player have the same new board |
| Engine.Tstris.HandleClearedRows | packages/tstris-core/lib/index.js:396-434 | returns the cleared board and the full rows; the total grows by their number, the score by the policy's award at the old level, and the level is the policy's verdict on the new total |
| Engine.Tstris.UpdateBoard | packages/tstris-core/lib/index.js:383-395 | locks iff the counter has reached the threshold (AfterLock: cleared stamped board, tallies, spawned pulled piece, counter 0, hold available); otherwise nothing changes |
| Engine.Tstris.PlacePiece | packages/tstris-core/lib/index.js:384-391 | the locking branch, field by field: cleared stamped board on both sides, tallies, spawn position, zero counter, pulled piece, shifted queue |
| Engine.Tstris.Move | packages/tstris-core/lib/index.js:311-318 | a move, then a lock at the moved position when the counter had reached the threshold, otherwise only the move |
| Engine.Tstris.RotatePiece | packages/tstris-core/lib/index.js:341-348 | a rotation with kicks, then a lock of the rotated piece when the counter had reached the threshold, otherwise only the rotation |
| Engine.Tstris.SoftDrop | packages/tstris-core/lib/index.js:319-324 | ended iff the drop reported game over; a lock at the dropped position iff the new counter reaches the threshold; otherwise only the drop; the hold slot is untouched |
| Engine.Tstris.NaturalDrop | packages/tstris-core/lib/index.js:370-382 | a prevented tick changes nothing; otherwise the same outcomes as a soft drop |
| Engine.Tstris.HardDrop | packages/tstris-core/lib/index.js:325-333 | always locks: at the landing row, or at the current row when the counter is already positive |
| Engine.Tstris.DropToRest | packages/tstris-core/lib/index.js:326-329 | the drop loop ends with a positive counter at the landing row, in the same column |
| Engine.Tstris.Hold | packages/tstris-core/lib/index.js:334-340 | a second hold before a lock, or hold disabled: nothing changes; otherwise hold is used up, the held piece is the former live piece, and when no lock follows: board and tallies unchanged, the live piece and queue those of the pull or the swap, the draw count that of the pull or unchanged, and the position and counter reset to spawn and 0 under resetOnHold, otherwise unchanged |
| SrcPlayer.RandomKey | packages/tstris-core/src/utils/getRandomKey.ts:1-4 | a random key is one of the catalog's keys |
| SrcPlayer.Player.PulledKey | packages/tstris-core/src/Tstris/Player/Player.ts:66-74 | the key getNextPiece returns is a catalog key |
| SrcPlayer.Player.constructor | packages/tstris-core/src/Tstris/Player/Player.ts:16-19 | a queue of N holes and position (0, 0) |
| SrcPlayer.Player.GetRandomPiece | packages/tstris-core/src/Tstris/Player/Player.ts:76-78 | the next draw, a catalog key |
| SrcPlayer.Player.Start | packages/tstris-core/src/Tstris/Player/Player.ts:21-28 | the live piece is the catalog shape of a drawn key, and queue slots 0..N-1 hold the following draws; the position is not touched |
| SrcPlayer.Player.Reset | packages/tstris-core/src/Tstris/Player/Player.ts:30-35 | no held piece, N holes, the `[[]]` shape |
| SrcPlayer.Player.ResetPlayer | packages/tstris-core/src/Tstris/Player/Player.ts:38-43 | spawn position, and the catalog shape of the key getNextPiece returns |
| SrcPlayer.Player.GetNextPiece | packages/tstris-core/src/Tstris/Player/Player.ts:66-74 | returns the former front key (or a fresh one for a hole), always a catalog key; the queue is shifted with a fresh key pushed when N > 0 |
| SrcTstris.Tstris.constructor | packages/tstris-core/src/Tstris/Tstris.ts:117-132 | the initial board, start level, zero score, idle status, a fresh player |
| SrcTstris.Tstris.Start | packages/tstris-core/src/Tstris/Tstris.ts:134-138 | the player is started (the shape of key k live, slot i holding key k+1+i, N+1 draws taken) and the status is playing |
| SrcTstris.Tstris.End | packages/tstris-core/src/Tstris/Tstris.ts:144-148 | `end()` leaves status ended and nothing else changed; `end(true)` finishes idle with the initial board and a reset player |
| SrcTstris.Tstris.Reset | packages/tstris-core/src/Tstris/Tstris.ts:151-155 | idle, the initial board and a reset player |
| SrcTstris.Tstris.SetBoard | packages/tstris-core/src/Tstris/Tstris.ts:229-232 | the new board is installed |
| SrcTstris.Tstris.GetBoardWithPlayer | packages/tstris-core/src/Tstris/Tstris.ts:189-205 | the board with the live shape's non-empty cells written at the position, or the board itself |
| SrcTstris.Tstris.GetBoardWithPlayerAsWritten | packages/tstris-core/src/Tstris/Tstris.ts:193-196 | returns the board iff there is no live piece, and throws iff there is one |
| SrcTstris.Tstris.HandleClearedRows | packages/tstris-core/src/Tstris/Tstris.ts:281-303 | the cleared board; the score grows by the policy's award; nothing else changes |
| SrcTstris.Tstris.UpdateBoard | packages/tstris-core/src/Tstris/Tstris.ts:268-278 | on a collision: the cleared stamped board, the award added, the player at spawn with the pulled key's shape, the queue shifted and the draws of the pull taken; otherwise board, score and player unchanged |
| SrcTstris.Tstris.UpdateBoardAsWritten | packages/tstris-core/src/Tstris/Tstris.ts:270-274 | the board is never changed, whether the piece has landed or not |
| SrcTstris.FreshDefaultBoard | packages/tstris-core/src/Tstris/Tstris.test.ts:11-18 | a fresh default game's board has 20 rows of 10 empty cells |
| SrcTstris.StartedGameThrows | packages/tstris-core/src/Tstris/Tstris.ts:193-196 | in a started default game, the as-written getBoardWithPlayer throws |

## Findings

| source | as written | input that shows it | evidently intended | confidence | as-written member | corrected member |
|---|---|---|---|---|---|---|
| packages/tstris-core/src/Tstris/Tstris.ts:196 | `this.player.currPiece.shape.forEach(...)`, but this revision's player holds the shape itself (`currPiece: string[][]`), so `.shape` is undefined and the call throws | any started game: `start()` sets `currPiece`, then `getBoardWithPlayer()` | stamp `currPiece` itself onto the board copy | high; not executed | SrcTstris.Tstris.GetBoardWithPlayerAsWritten | SrcTstris.Tstris.GetBoardWithPlayer |
| packages/tstris-core/src/Tstris/Tstris.ts:270 | `if (this.player.collided)` reads a field this revision's player never defines, so the test is always false and no piece is ever locked | any call of `updateBoard()`: it re-copies the board and never locks. No public command of this revision reaches it, because Player.ts defines no `drop`, `moveHorizontal` or `checkCollision`, so `softDrop`, `moveLeft`/`moveRight` and the game loop throw first | lock when the player reports a collision | high; not executed | SrcTstris.Tstris.UpdateBoardAsWritten | SrcTstris.Tstris.UpdateBoard |

## Left out

- Event dispatch is not modelled. That covers `dispatchEvent`, the listener
  map, `on`/`off` and `getEventMap`, and every event payload. The listeners
  are arbitrary user callbacks. The one event whose result matters,
  `naturalDrop`'s `preventDefault`, is the `prevented` parameter of
  `Engine.Tstris.NaturalDrop`.
- `Engine.Tstris.NaturalDrop` models one due tick of the game loop. The
  timer and clock are not modelled: `startLoop`, `stopLoop`, `resetLoop`,
  `setInterval`, `Date.now`, the `speedFunction` gate and `console.log`.
  The timer restarts in `softDrop` and `hardDrop` are left out for the same
  reason.
- `Math.random` is replaced by the oracle `rand`. No uniformity claim is
  made.
- The score, level and speed policies are parameters or left out, because
  they are user code. The model does not use `speedFunction` at all.
- `Engine.Player.RotatePiece` and `Engine.Tstris.RotatePiece` require a
  square shape, because `rotate` handles only square shapes (see above).
  Every default piece is square. The other shapes are not modelled, with
  one reachable case: the reset placeholder `[[]]` (index.js:82). After
  `reset()` or `end(true)`, a rotation turns it into `[[undefined]]`, a
  solid one-cell piece that can fall, lock and write `undefined` into the
  board. The model has no `undefined` cell and does not cover this.
- `Engine.Tstris.HardDrop` requires a starting state from which its loop
  ends. Either the counter is already positive, or the shape has a cell, is
  not stuck at the top and is not above row 0. With a zero counter, the
  source's `while (collided <= 0)` loop (index.js:326-329) never ends on two
  inputs:
  - A piece stuck at the top: `drop` reports game over on every turn.
  - A shape with no cell. This is reachable as the `[[]]` placeholder after
    `reset()` or `end(true)` (index.js:82). It never collides
    (`Engine.NoCellNeverCollides`), so every drop succeeds, the row grows
    without bound, and `end()` is never called.

  In both cases the counter never rises, so `hardDrop()` never returns. The
  clause `pos.y >= 0` excludes no reachable state, since rows start at 0 and
  only grow; it is there for the proof. Under the requirement the inner
  `end()` call is never reached.
- `Config.ValidOptions` requires three things:
  - a non-empty catalog, because a draw from an empty one is `undefined`;
  - distinct keys, because they are object keys;
  - an even width, because the spawn column `width / 2 - 2` would not be
    a whole number.
- `Grid.StampPiece`, `Engine.Tstris.GetBoardWithPlayer`: piece cells that
  fall outside the board are skipped. In the source, a missing row throws a
  TypeError, a column past the end of a row makes the row longer, and a
  negative column adds a stray property to the row.
  The source reaches such positions in three ways:
  - A hold without `resetOnHold`: index.js:97-105 does not move the piece,
    so a piece swapped in or pulled next to a wall or near the floor can
    have cells off the board. An O at x = 8 on a 10-wide board, replaced
    by a J, writes into column 10.
  - A board narrower than a spawned shape.
  - A configured default board with ragged rows.
- `Engine.Tstris.Move`, `Engine.Tstris.RotatePiece`, `Engine.Tstris.SoftDrop`,
  `Engine.Tstris.NaturalDrop`, `Engine.Tstris.HardDrop`: each requires a
  live piece. Before `start()` a game has no `currPiece` (index.js:61-68).
  Any of these commands would then throw a TypeError in the source, because
  `checkCollision` (index.js:148) and `rotatePiece` (index.js:113) read
  `currPiece.shape`. The model does not cover commands issued before
  `start()`.
- `Engine.Tstris.Hold`: when the update pass right after a hold locks a
  piece, the contract states only `holdUsed` and the held piece. That case
  needs `resetOnHold` off with the counter at the threshold, or a threshold
  of 0 or less.
- `Engine.Tstris.GetBoard`, `SrcTstris.Tstris.GetBoard`: no contract. With
  boards as values, the copy is the board itself.
- `SrcPlayer.Player.Hold`: no contract beyond its empty frame, because the
  stub does nothing in either branch.
- `SrcTstris.Tstris.SetBoard` does not model the write of `player.board`,
  because this revision's player declares no board and never reads one. The
  extra `board` argument that `Tstris.ts:131` passes to the player is
  ignored in the source too.
- The `paused` status is declared in `Tstris.ts` but never assigned, so it
  is not modelled.
- `packages/tstris-core/lib/index.mjs` is not part of this model. It is an
  older build of the same logic as the TypeScript sources.
- JavaScript numbers are doubles. The model uses unbounded integers, which
  agree with them for every board and counter size the engine can reach.
