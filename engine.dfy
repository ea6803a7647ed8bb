/** The game engine as shipped in the compiled bundle: a `Player` that owns
    the falling piece, its position, the hold slot and the next-queue, and a
    `Tstris` game that owns the board, the score, the cleared-row count, the
    level and the status, and locks pieces into the board. Random draws come
    from the oracle `rand`: the k-th draw of a player picks catalog entry
    `rand(k) % |catalog|`. */
module Engine {
  import opened Optional
  import opened Grid
  import opened Pieces
  import opened WallKick
  import opened Queue
  import opened Config

  /** A live piece: its (possibly rotated) shape and its type key. */
  datatype Piece = Piece(shape: Shape, kind: string)

  datatype Status = Idle | Playing | Ended

  /** getRandomPiece with the k-th random number: a copy of some catalog
      entry's shape, tagged with that entry's key. */
  function Draw(catalog: seq<PieceType>, rand: nat -> nat, k: nat): (p: Piece)
    requires |catalog| > 0
    ensures exists a :: 0 <= a < |catalog| && p == Piece(catalog[a].shape, catalog[a].key)
  {
    var a := rand(k) % |catalog|;
    Piece(catalog[a].shape, catalog[a].key)
  }

  /** What getBoardWithPlayer returns: the board, with the live piece stamped
      on it when there is one. */
  function WithPlayer(b: Board, piece: Option<Piece>, pos: Pos): Board {
    if piece.None? then b else Overlay(b, piece.value.shape, pos.x, pos.y)
  }

  class Player {
    const options: Options
    /** The random oracle and how many draws have been taken from it. */
    const rand: nat -> nat
    var draws: nat
    var board: Board
    var pos: Pos
    var collided: int
    var currPiece: Option<Piece>
    var heldPiece: Option<Piece>
    var nextPieces: seq<Option<Piece>>

    ghost predicate Valid()
      reads this`nextPieces
    {
      ValidOptions(options) && |nextPieces| == options.nextQueueSize
    }

    /** The spawn position. */
    function Spawn(): Pos {
      Pos(SpawnX(options), 0)
    }

    /** The piece the k-th draw yields. */
    function DrawAt(k: nat): Piece
      requires |options.pieceTypes| > 0
    {
      Draw(options.pieceTypes, rand, k)
    }

    /** What the next getNextPiece returns: the refill is drawn first (when
        the queue size is positive), the fallback after it. */
    function PulledPiece(): Piece
      reads this`nextPieces, this`draws
      requires |options.pieceTypes| > 0
    {
      Pulled(nextPieces, DrawAt(if options.nextQueueSize > 0 then draws + 1 else draws))
    }

    /** The queue after the next getNextPiece. */
    function QueueAfterPull(): seq<Option<Piece>>
      reads this`nextPieces, this`draws
      requires |options.pieceTypes| > 0
    {
      Shifted(nextPieces, options.nextQueueSize, DrawAt(draws))
    }

    /** The draw count after the next getNextPiece. */
    function DrawsAfterPull(): nat
      reads this`nextPieces, this`draws
    {
      draws + (if options.nextQueueSize > 0 then 1 else 0) + (if Front(nextPieces).None? then 1 else 0)
    }

    /** The cell below the piece is blocked. */
    function DropBlocked(): bool
      reads this`board, this`currPiece, this`pos
      requires currPiece.Some?
    {
      Collides(board, currPiece.value.shape, pos.x, pos.y + 1)
    }

    /** Whether drop reports game over: blocked while still in the top row. */
    function DropOver(): bool
      reads this`board, this`currPiece, this`pos
      requires currPiece.Some?
    {
      DropBlocked() && pos.y < 1
    }

    /** The position after drop. */
    function DropPos(): Pos
      reads this`board, this`currPiece, this`pos
      requires currPiece.Some?
    {
      if DropBlocked() then pos else Pos(pos.x, pos.y + 1)
    }

    /** The collision counter after drop. */
    function DropCount(): int
      reads this`board, this`currPiece, this`pos, this`collided
      requires currPiece.Some?
    {
      if DropBlocked() && pos.y >= 1 then collided + 1 else collided
    }

    /** The position moveHorizontal(dir) ends at. */
    function Moved(dir: Direction): Pos
      reads this`board, this`currPiece, this`pos
      requires currPiece.Some?
    {
      var d := if dir == Left then -1 else 1;
      if Collides(board, currPiece.value.shape, pos.x + d, pos.y) then pos else Pos(pos.x + d, pos.y)
    }

    /** The column the wall-kick search after rotating in `dir` settles on. */
    function KickColumn(dir: Direction): Option<int>
      reads this`board, this`currPiece, this`pos
      requires currPiece.Some? && IsSquare(currPiece.value.shape)
    {
      var s := currPiece.value.shape;
      Kick(board, Rotate(s, dir), pos.y, pos.x, 1, |s|)
    }

    /** The piece after rotatePiece(dir): rotated, or unchanged when the
        search gave up. */
    function RotatedPiece(dir: Direction): Option<Piece>
      reads this`board, this`currPiece, this`pos
      requires currPiece.Some? && IsSquare(currPiece.value.shape)
    {
      if KickColumn(dir).Some? then Some(Piece(Rotate(currPiece.value.shape, dir), currPiece.value.kind))
      else currPiece
    }

    /** The position after rotatePiece(dir). */
    function RotatedPos(dir: Direction): Pos
      reads this`board, this`currPiece, this`pos
      requires currPiece.Some? && IsSquare(currPiece.value.shape)
    {
      if KickColumn(dir).Some? then Pos(KickColumn(dir).value, pos.y) else pos
    }

    constructor (options: Options, board: Board, rand: nat -> nat)
      requires ValidOptions(options)
      ensures Valid()
      ensures this.options == options && this.board == board && this.rand == rand
      ensures draws == 0 && pos == Pos(0, 0) && collided == 0
      ensures currPiece == None && heldPiece == None
      ensures nextPieces == Holes(options.nextQueueSize)
    {
      this.options := options;
      this.board := board;
      this.rand := rand;
      draws := 0;
      collided := 0;
      nextPieces := Holes(options.nextQueueSize);
      pos := Pos(0, 0);
      currPiece := None;
      heldPiece := None;
    }

    /** getRandomPiece: take the next draw. */
    method GetRandomPiece() returns (p: Piece)
      requires ValidOptions(options)
      modifies this`draws
      ensures p == DrawAt(old(draws)) && draws == old(draws) + 1
      ensures exists a :: 0 <= a < |options.pieceTypes| &&
                p == Piece(options.pieceTypes[a].shape, options.pieceTypes[a].key)
    {
      var a := rand(draws) % |options.pieceTypes|;
      p := Piece(options.pieceTypes[a].shape, options.pieceTypes[a].key);
      draws := draws + 1;
    }

    /** start: spawn position, a drawn current piece, and a queue filled slot
        by slot with the following draws. */
    method Start()
      requires Valid()
      modifies this`pos, this`currPiece, this`nextPieces, this`draws
      ensures Valid() && Filled(nextPieces)
      ensures pos == Spawn() && currPiece == Some(DrawAt(old(draws)))
      ensures forall i :: 0 <= i < |nextPieces| ==> nextPieces[i] == Some(DrawAt(old(draws) + 1 + i))
      ensures draws == old(draws) + 1 + options.nextQueueSize
    {
      pos := Spawn();
      var p := GetRandomPiece();
      currPiece := Some(p);
      for i := 0 to options.nextQueueSize
        invariant pos == Spawn() && currPiece == Some(DrawAt(old(draws)))
        invariant |nextPieces| == options.nextQueueSize
        invariant draws == old(draws) + 1 + i
        invariant forall k :: 0 <= k < i ==> nextPieces[k] == Some(DrawAt(old(draws) + 1 + k))
      {
        var q := GetRandomPiece();
        nextPieces := nextPieces[i := Some(q)];
      }
    }

    /** reset: empty hold slot, a queue of holes, the placeholder piece with
        one empty row, spawn position and a zero counter. */
    method Reset()
      requires Valid()
      modifies this`heldPiece, this`nextPieces, this`currPiece, this`pos, this`collided
      ensures Valid()
      ensures heldPiece == None && nextPieces == Holes(options.nextQueueSize)
      ensures currPiece == Some(Piece([[]], "")) && pos == Spawn() && collided == 0
    {
      heldPiece := None;
      nextPieces := Holes(options.nextQueueSize);
      currPiece := Some(Piece([[]], ""));
      heldPiece := None;
      pos := Spawn();
      collided := 0;
    }

    /** resetPlayer: back to the spawn position with a zero counter; unless
        called after a hold, the next piece is pulled from the queue. */
    method ResetPlayer(afterHold: bool)
      requires Valid()
      modifies this`pos, this`collided, this`currPiece, this`nextPieces, this`draws
      ensures Valid()
      ensures pos == Spawn() && collided == 0
      ensures afterHold ==> currPiece == old(currPiece) && nextPieces == old(nextPieces) && draws == old(draws)
      ensures !afterHold ==>
        currPiece == Some(old(PulledPiece())) && nextPieces == old(QueueAfterPull()) &&
        draws == old(DrawsAfterPull())
    {
      pos := Spawn();
      collided := 0;
      if !afterHold {
        var p := GetNextPiece();
        currPiece := Some(p);
      }
    }

    /** hold: with holding enabled, an empty hold slot takes the live piece
        and the next piece is pulled; otherwise the two are swapped. With
        resetOnHold the piece goes back to the spawn position. */
    method Hold()
      requires Valid()
      modifies this`heldPiece, this`currPiece, this`nextPieces, this`draws, this`pos, this`collided
      ensures Valid()
      ensures !options.hold ==>
        heldPiece == old(heldPiece) && currPiece == old(currPiece) && nextPieces == old(nextPieces) &&
        draws == old(draws) && pos == old(pos) && collided == old(collided)
      ensures options.hold ==> heldPiece == old(currPiece)
      ensures options.hold && old(heldPiece).None? ==>
        currPiece == Some(old(PulledPiece())) && nextPieces == old(QueueAfterPull()) &&
        draws == old(DrawsAfterPull())
      ensures options.hold && old(heldPiece).Some? ==>
        currPiece == old(heldPiece) && nextPieces == old(nextPieces) && draws == old(draws)
      ensures options.hold && options.resetOnHold ==> pos == Spawn() && collided == 0
      ensures !(options.hold && options.resetOnHold) ==> pos == old(pos) && collided == old(collided)
    {
      if !options.hold {
        return;
      }
      if heldPiece.None? {
        heldPiece := currPiece;
        var p := GetNextPiece();
        currPiece := Some(p);
      } else {
        var tmp := heldPiece;
        heldPiece := currPiece;
        currPiece := tmp;
      }
      if options.resetOnHold {
        ResetPlayer(true);
      }
    }

    /** rotatePiece: rotate, then search for a column where the rotated
        piece fits (KickRotated); when there is none, the rotation is undone.
        The piece never ends in a colliding position it was not already in. */
    method RotatePiece(dir: Direction)
      requires Valid() && currPiece.Some? && IsSquare(currPiece.value.shape)
      modifies this`currPiece, this`pos
      ensures currPiece == old(RotatedPiece(dir)) && pos == old(RotatedPos(dir))
      ensures (currPiece == old(currPiece) && pos == old(pos)) ||
              !Collides(board, currPiece.value.shape, pos.x, pos.y)
    {
      var s := currPiece.value.shape;
      var rotated := Rotate(s, dir);
      RotateSquare(s, dir, Empty);
      RotateInverse(s, dir);
      currPiece := Some(Piece(rotated, currPiece.value.kind));
      KickRotated(dir, s);
    }

    /** The loop of rotatePiece, entered with the rotated piece in place:
        shift the piece by the ping-pong offsets until it fits; once the next
        positive offset would exceed the shape's width, put the `original`
        shape back (by rotating the other way) and return to the starting
        column. */
    method KickRotated(dir: Direction, original: Shape)
      requires currPiece.Some? && IsSquare(currPiece.value.shape)
      requires Rotate(currPiece.value.shape, Opposite(dir)) == original
      modifies this`currPiece, this`pos
      ensures var k := old(Kick(board, currPiece.value.shape, pos.y, pos.x, 1, |currPiece.value.shape|));
        (k.Some? ==> currPiece == old(currPiece) && pos == Pos(k.value, old(pos.y)) &&
                     !Collides(board, currPiece.value.shape, pos.x, pos.y)) &&
        (k.None? ==> currPiece == Some(Piece(original, old(currPiece.value.kind))) && pos == old(pos))
    {
      var rotated := currPiece.value.shape;
      var w := |rotated|;
      var startingX := pos.x;
      var offset := 1;
      var hit := CheckCollision(0, 0);
      ghost var search := Kick(board, rotated, pos.y, pos.x, offset, w);
      while hit
        invariant currPiece == old(currPiece) && pos.y == old(pos.y)
        invariant KickOffset(offset, w)
        invariant hit == Collides(board, rotated, pos.x, pos.y)
        invariant Kick(board, rotated, pos.y, pos.x, offset, w) == search
        decreases w + 2 - Abs(offset)
      {
        pos := Pos(pos.x + offset, pos.y);
        offset := -(offset + (if offset > 0 then 1 else -1));
        if offset > |currPiece.value.shape[0]| {
          UndoRotation(dir, original);
          pos := Pos(startingX, pos.y);
          return;
        }
        hit := CheckCollision(0, 0);
      }
    }

    /** Rotate the piece back the other way, which restores `original`. */
    method UndoRotation(dir: Direction, original: Shape)
      requires currPiece.Some? && IsSquare(currPiece.value.shape)
      requires Rotate(currPiece.value.shape, Opposite(dir)) == original
      modifies this`currPiece
      ensures currPiece == Some(Piece(original, old(currPiece.value.kind)))
    {
      currPiece := Some(Piece(Rotate(currPiece.value.shape, Opposite(dir)), currPiece.value.kind));
    }

    /** updatePos: move by (dx, dy) and add dc to the collision counter. */
    method UpdatePos(dx: int, dy: int, dc: int)
      modifies this`pos, this`collided
      ensures pos == Pos(old(pos.x) + dx, old(pos.y) + dy) && collided == old(collided) + dc
    {
      pos := Pos(pos.x + dx, pos.y + dy);
      collided := collided + dc;
    }

    /** drop: a free cell below moves the piece down one row; a blocked one
        at the top row reports game over; a blocked one lower down counts one
        more collision. The counter is never reset by a successful drop. */
    method Drop() returns (over: bool)
      requires currPiece.Some?
      modifies this`pos, this`collided
      ensures !old(DropBlocked()) ==> !over && pos == Pos(old(pos.x), old(pos.y) + 1) && collided == old(collided)
      ensures old(DropBlocked()) && old(pos.y) < 1 ==> over && pos == old(pos) && collided == old(collided)
      ensures old(DropBlocked()) && old(pos.y) >= 1 ==> !over && pos == old(pos) && collided == old(collided) + 1
      ensures pos != old(pos) ==> !Collides(board, currPiece.value.shape, pos.x, pos.y)
      ensures over == old(DropOver()) && pos == old(DropPos()) && collided == old(DropCount())
    {
      var hit := CheckCollision(0, 1);
      if !hit {
        UpdatePos(0, 1, 0);
      } else {
        if pos.y < 1 {
          return true;
        }
        UpdatePos(0, 0, 1);
      }
      return false;
    }

    /** checkCollision: scan the shape row by row and report the first
        non-empty cell that would land on a blocked board cell. */
    method CheckCollision(dx: int, dy: int) returns (hit: bool)
      requires currPiece.Some?
      ensures hit == Collides(board, currPiece.value.shape, pos.x + dx, pos.y + dy)
    {
      var s := currPiece.value.shape;
      var x0, y0 := pos.x + dx, pos.y + dy;
      for i := 0 to |s|
        invariant forall r, c :: 0 <= r < i && 0 <= c < |s[r]| ==> !(s[r][c] != Empty && Blocked(board, r + y0, c + x0))
      {
        for j := 0 to |s[i]|
          invariant forall r, c :: 0 <= r < i && 0 <= c < |s[r]| ==> !(s[r][c] != Empty && Blocked(board, r + y0, c + x0))
          invariant forall c :: 0 <= c < j ==> !(s[i][c] != Empty && Blocked(board, i + y0, c + x0))
        {
          if s[i][j] != Empty && Blocked(board, i + y0, j + x0) {
            return true;
          }
        }
      }
      return false;
    }

    /** moveHorizontal: one column left or right when that column is free;
        the counter is untouched. */
    method MoveHorizontal(dir: Direction)
      requires currPiece.Some?
      modifies this`pos, this`collided
      ensures pos == old(Moved(dir)) && collided == old(collided)
      ensures pos != old(pos) ==> !Collides(board, currPiece.value.shape, pos.x, pos.y)
    {
      var d := if dir == Left then -1 else 1;
      var hit := CheckCollision(d, 0);
      if !hit {
        UpdatePos(d, 0, 0);
      }
    }

    /** getNextPiece: shift the front slot out, push a fresh draw when the
        queue size is positive, and return the former front, or a fresh draw
        when it was a hole. */
    method GetNextPiece() returns (p: Piece)
      requires Valid()
      modifies this`nextPieces, this`draws
      ensures Valid()
      ensures p == old(PulledPiece()) && nextPieces == old(QueueAfterPull()) && draws == old(DrawsAfterPull())
    {
      var front := Front(nextPieces);
      nextPieces := if |nextPieces| > 0 then nextPieces[1..] else [];
      if options.nextQueueSize > 0 {
        var r := GetRandomPiece();
        nextPieces := nextPieces + [Some(r)];
      }
      if front.Some? {
        p := front.value;
      } else {
        p := GetRandomPiece();
      }
    }
  }

  /** The row a piece falling from row y in column x comes to rest on: the
      first row whose next row down is blocked. */
  function LandingRow(b: Board, s: Shape, x: int, y: int): int
    requires HasCell(s)
    decreases |b| - y
  {
    if Collides(b, s, x, y + 1) then y
    else
      FreeRowOnBoard(b, s, x, y + 1);
      LandingRow(b, s, x, y + 1)
  }

  /** A shape with a cell fits only where that cell is on the board, so a
      free row is above the bottom of the board. */
  lemma FreeRowOnBoard(b: Board, s: Shape, x: int, y: int)
    requires HasCell(s) && !Collides(b, s, x, y)
    ensures y < |b|
  {
    var i, j :| 0 <= i < |s| && 0 <= j < |s[i]| && s[i][j] != Empty;
    assert !Blocked(b, i + y, j + x);
  }

  /** A shape without a non-empty cell collides nowhere, so drop always
      moves it down and never counts a collision. */
  lemma NoCellNeverCollides(b: Board, s: Shape, x: int, y: int)
    requires !HasCell(s)
    ensures !Collides(b, s, x, y)
  {
  }

  /** The landing row is at or below the start, the piece rests on a blocked
      cell there, and every row it passes through on the way is free. */
  lemma {:induction false} LandingRowRests(b: Board, s: Shape, x: int, y: int)
    requires HasCell(s)
    ensures y <= LandingRow(b, s, x, y)
    ensures Collides(b, s, x, LandingRow(b, s, x, y) + 1)
    ensures forall r :: y < r <= LandingRow(b, s, x, y) ==> !Collides(b, s, x, r)
    decreases |b| - y
  {
    if !Collides(b, s, x, y + 1) {
      FreeRowOnBoard(b, s, x, y + 1);
      LandingRowRests(b, s, x, y + 1);
    }
  }

  /** Tallies and pull of the state a lock starts from. */
  datatype Before = Before(rowsCleared: nat, score: int, level: int, pulled: Piece,
                           queue: seq<Option<Piece>>, draws: nat)

  /** The fields of a game and its player that a lock rewrites. */
  datatype Lock = Lock(board: Board, playerBoard: Board, rowsCleared: nat, score: int, level: int, holdUsed: bool,
                       pos: Pos, collided: int, currPiece: Option<Piece>, queue: seq<Option<Piece>>, draws: nat)

  /** The parts of the game an update pass without a lock leaves alone. */
  datatype Unlocked = Unlocked(board: Board, score: int, rowsCleared: nat, level: int, holdUsed: bool,
                               queue: seq<Option<Piece>>, draws: nat)

  class Tstris {
    const options: Options
    const scoreFunction: ScoreArgs -> int
    const levelFunction: LevelArgs -> int
    const player: Player
    var board: Board
    var score: int
    var rowsCleared: nat
    var level: int
    var status: Status
    var holdUsed: bool

    /** The player shares the game's options, and setBoard keeps the two
        boards the same. */
    ghost predicate Valid()
      reads this`board, player`board, player`nextPieces
    {
      player.Valid() && player.options == options && player.board == board
    }

    /** The parts of the state a lock starts from. */
    function Snapshot(): Before
      reads this`rowsCleared, this`score, this`level, player`nextPieces, player`draws
      requires |player.options.pieceTypes| > 0
    {
      Before(rowsCleared, score, level, player.PulledPiece(), player.QueueAfterPull(), player.DrawsAfterPull())
    }

    /** The fields a lock rewrites. */
    function Locked(): Lock
      reads this`board, this`rowsCleared, this`score, this`level, this`holdUsed,
            player`board, player`pos, player`collided, player`currPiece, player`nextPieces, player`draws
    {
      Lock(board, player.board, rowsCleared, score, level, holdUsed,
           player.pos, player.collided, player.currPiece, player.nextPieces, player.draws)
    }

    /** The effect of locking the piece, from the state `before`, with
        `stamped` the board with the piece drawn on it: both boards become
        `stamped` with its full rows cleared, the cleared-row total grows by
        their number, the score by the score policy's award at the old level,
        the level is the level policy's verdict on the new total, holding is
        available again, and the pulled piece is live at the spawn position
        with a zero counter. */
    function AfterLock(stamped: Board, before: Before): Lock {
      var k := |FullRows(stamped)|;
      var cleared := ClearRows(stamped);
      var total := before.rowsCleared + k;
      Lock(cleared, cleared, total, before.score + scoreFunction(ScoreArgs(k, before.level, false)),
           levelFunction(LevelArgs(total, before.level)), false,
           player.Spawn(), 0, Some(before.pulled), before.queue, before.draws)
    }

    /** What a pass that locks nothing leaves alone: board, tallies, hold
        flag and queue. */
    function Quiet(): Unlocked
      reads this`board, this`score, this`rowsCleared, this`level, this`holdUsed, player`nextPieces, player`draws
    {
      Unlocked(board, score, rowsCleared, level, holdUsed, player.nextPieces, player.draws)
    }

    constructor (options: Options, rand: nat -> nat, scoreFunction: ScoreArgs -> int, levelFunction: LevelArgs -> int)
      requires ValidOptions(options)
      ensures Valid() && fresh(player)
      ensures this.options == options && this.scoreFunction == scoreFunction &&
              this.levelFunction == levelFunction && player.rand == rand
      ensures board == InitialBoard(options) && status == Idle && !holdUsed
      ensures score == 0 && rowsCleared == 0 && level == options.startLevel
      ensures player.draws == 0 && player.pos == Pos(0, 0) && player.collided == 0
      ensures player.currPiece == None && player.heldPiece == None
      ensures player.nextPieces == Holes(options.nextQueueSize)
    {
      holdUsed := false;
      rowsCleared := 0;
      score := 0;
      status := Idle;
      this.options := options;
      this.scoreFunction := scoreFunction;
      this.levelFunction := levelFunction;
      level := options.startLevel;
      board := InitialBoard(options);
      player := new Player(options, InitialBoard(options), rand);
    }

    /** start: the player draws its pieces and the game is playing. */
    method Start()
      requires Valid()
      modifies this`status, player`pos, player`currPiece, player`nextPieces, player`draws
      ensures Valid() && status == Playing && Filled(player.nextPieces)
      ensures player.pos == player.Spawn() && player.currPiece == Some(player.DrawAt(old(player.draws)))
      ensures forall i :: 0 <= i < |player.nextPieces| ==>
                player.nextPieces[i] == Some(player.DrawAt(old(player.draws) + 1 + i))
      ensures player.draws == old(player.draws) + 1 + options.nextQueueSize
    {
      player.Start();
      status := Playing;
    }

    /** end: the game is over; with `reset`, it is reset and idle again. */
    method End(reset: bool)
      requires Valid()
      modifies this`status, this`board, player`board, player`heldPiece, player`nextPieces,
               player`currPiece, player`pos, player`collided
      ensures Valid()
      ensures !reset ==> status == Ended && unchanged(player) && board == old(board)
      ensures reset ==> status == Idle && board == InitialBoard(options) && player.heldPiece == None &&
                        player.nextPieces == Holes(options.nextQueueSize) &&
                        player.currPiece == Some(Piece([[]], "")) && player.pos == player.Spawn() &&
                        player.collided == 0
    {
      status := Ended;
      if reset {
        Reset();
      }
    }

    /** reset: a reset player, the initial board again and idle status;
        score, cleared rows and level are kept. */
    method Reset()
      requires Valid()
      modifies this`status, this`board, player`board, player`heldPiece, player`nextPieces,
               player`currPiece, player`pos, player`collided
      ensures Valid()
      ensures status == Idle && board == InitialBoard(options) && player.heldPiece == None &&
              player.nextPieces == Holes(options.nextQueueSize) &&
              player.currPiece == Some(Piece([[]], "")) && player.pos == player.Spawn() &&
              player.collided == 0
    {
      player.Reset();
      SetBoard(InitialBoard(options));
      status := Idle;
    }

    /** getBoard: a copy of the board (boards are values here). */
    function GetBoard(): Board
      reads this
    {
      board
    }

    /** getBoardWithPlayer: the board with the live piece's non-empty cells
        written over it; without a live piece, the board itself. */
    method GetBoardWithPlayer() returns (b: Board)
      ensures b == WithPlayer(board, player.currPiece, player.pos)
    {
      b := GetBoard();
      if player.currPiece.None? {
        return;
      }
      b := StampPiece(b, player.currPiece.value.shape, player.pos.x, player.pos.y);
    }

    /** setBoard: the game and the player see the same new board. */
    method SetBoard(value: Board)
      modifies this`board, player`board
      ensures board == value && player.board == value
    {
      board := value;
      player.board := value;
    }

    /** handleClearedRows: clear the full rows of `newBoard`, add their
        number to the total, add the score policy's award (computed with the
        level before this placement) and take the level policy's verdict. */
    method HandleClearedRows(newBoard: Board) returns (cleared: Board, rows: seq<nat>)
      modifies this`rowsCleared, this`score, this`level
      ensures cleared == ClearRows(newBoard) && rows == FullRows(newBoard)
      ensures rowsCleared == old(rowsCleared) + |rows|
      ensures score == old(score) + scoreFunction(ScoreArgs(|rows|, old(level), false))
      ensures level == levelFunction(LevelArgs(rowsCleared, old(level)))
    {
      cleared, rows := ClearFullRows(newBoard);
      rowsCleared := rowsCleared + |rows|;
      var award := scoreFunction(ScoreArgs(|rows|, level, false));
      score := score + award;
      var newLevel := levelFunction(LevelArgs(rowsCleared, level));
      if newLevel != level {
        level := newLevel;
      }
    }

    /** updateBoard: when the counter has reached placementCollisions the
        piece is locked (see AfterLock); otherwise nothing changes. */
    method UpdateBoard()
      requires Valid()
      modifies this`board, this`score, this`rowsCleared, this`level, this`holdUsed,
               player`board, player`pos, player`collided, player`currPiece, player`nextPieces, player`draws
      ensures Valid()
      ensures old(player.collided) >= options.placementCollisions ==>
        Locked() == AfterLock(WithPlayer(old(board), old(player.currPiece), old(player.pos)), old(Snapshot()))
      ensures old(player.collided) < options.placementCollisions ==> unchanged(this) && unchanged(player)
    {
      if player.collided >= options.placementCollisions {
        PlacePiece();
      } else {
        SetBoard(GetBoard());
      }
    }

    /** The locking branch of updateBoard: stamp the piece, clear the full
        rows and update the tallies, install the new board, pull the next
        piece and make holding available again. */
    method PlacePiece()
      requires Valid()
      modifies this`board, this`score, this`rowsCleared, this`level, this`holdUsed,
               player`board, player`pos, player`collided, player`currPiece, player`nextPieces, player`draws
      ensures Valid()
      ensures board == ClearRows(WithPlayer(old(board), old(player.currPiece), old(player.pos))) && player.board == board
      ensures rowsCleared == old(rowsCleared) + |FullRows(WithPlayer(old(board), old(player.currPiece), old(player.pos)))|
      ensures score == old(score) + scoreFunction(ScoreArgs(|FullRows(WithPlayer(old(board), old(player.currPiece), old(player.pos)))|, old(level), false))
      ensures level == levelFunction(LevelArgs(rowsCleared, old(level)))
      ensures player.pos == player.Spawn() && player.collided == 0 && !holdUsed
      ensures player.currPiece == Some(old(player.PulledPiece())) && player.nextPieces == old(player.QueueAfterPull())
      ensures player.draws == old(player.DrawsAfterPull())
    {
      var stamped := GetBoardWithPlayer();
      var cleared, rows := HandleClearedRows(stamped);
      SetBoard(cleared);
      player.ResetPlayer(false);
      holdUsed := false;
    }

    /** moveLeft / moveRight: move, then run the update pass, which locks
        the piece when the counter had already reached the threshold. */
    method Move(dir: Direction)
      requires Valid() && player.currPiece.Some?
      modifies this`board, this`score, this`rowsCleared, this`level, this`holdUsed,
               player`board, player`pos, player`collided, player`currPiece, player`nextPieces, player`draws
      ensures Valid()
      ensures old(player.collided) >= options.placementCollisions ==>
        Locked() == AfterLock(WithPlayer(old(board), old(player.currPiece), old(player.Moved(dir))), old(Snapshot()))
      ensures old(player.collided) < options.placementCollisions ==>
        Quiet() == old(Quiet()) && player.pos == old(player.Moved(dir)) &&
        player.currPiece == old(player.currPiece) && player.collided == old(player.collided)
    {
      ghost var before := Snapshot();
      player.MoveHorizontal(dir);
      assert Snapshot() == before;
      UpdateBoard();
    }

    /** rotateRight / rotateLeft: rotate with wall kicks, then run the
        update pass. */
    method RotatePiece(dir: Direction)
      requires Valid() && player.currPiece.Some? && IsSquare(player.currPiece.value.shape)
      modifies this`board, this`score, this`rowsCleared, this`level, this`holdUsed,
               player`board, player`pos, player`collided, player`currPiece, player`nextPieces, player`draws
      ensures Valid()
      ensures old(player.collided) >= options.placementCollisions ==>
        Locked() == AfterLock(WithPlayer(old(board), old(player.RotatedPiece(dir)), old(player.RotatedPos(dir))), old(Snapshot()))
      ensures old(player.collided) < options.placementCollisions ==>
        Quiet() == old(Quiet()) && player.currPiece == old(player.RotatedPiece(dir)) &&
        player.pos == old(player.RotatedPos(dir)) && player.collided == old(player.collided)
    {
      ghost var before := Snapshot();
      player.RotatePiece(dir);
      assert Snapshot() == before;
      UpdateBoard();
    }

    /** softDrop: drop one row (ending the game when the piece is stuck at
        the top), then run the update pass. The timer restart is not
        modelled. */
    method SoftDrop()
      requires Valid() && player.currPiece.Some?
      modifies this`status, this`board, this`score, this`rowsCleared, this`level, this`holdUsed,
               player`board, player`pos, player`collided, player`currPiece, player`nextPieces, player`draws,
               player`heldPiece
      ensures Valid() && player.heldPiece == old(player.heldPiece)
      ensures status == if old(player.DropOver()) then Ended else old(status)
      ensures old(player.DropCount()) >= options.placementCollisions ==>
        Locked() == AfterLock(WithPlayer(old(board), old(player.currPiece), old(player.DropPos())), old(Snapshot()))
      ensures old(player.DropCount()) < options.placementCollisions ==>
        Quiet() == old(Quiet()) && player.pos == old(player.DropPos()) &&
        player.collided == old(player.DropCount()) && player.currPiece == old(player.currPiece)
    {
      ghost var before := Snapshot();
      var over := player.Drop();
      if over {
        End(false);
      }
      assert Snapshot() == before;
      UpdateBoard();
    }

    /** One due tick of the game loop: unless a listener prevented it, drop
        one row, run the update pass, and end the game when the drop reported
        game over. Deciding when a tick is due is not modelled. */
    method NaturalDrop(prevented: bool)
      requires Valid() && player.currPiece.Some?
      modifies this`status, this`board, this`score, this`rowsCleared, this`level, this`holdUsed,
               player`board, player`pos, player`collided, player`currPiece, player`nextPieces, player`draws,
               player`heldPiece
      ensures Valid() && player.heldPiece == old(player.heldPiece)
      ensures prevented ==> unchanged(this) && unchanged(player)
      ensures !prevented ==> status == if old(player.DropOver()) then Ended else old(status)
      ensures !prevented && old(player.DropCount()) >= options.placementCollisions ==>
        Locked() == AfterLock(WithPlayer(old(board), old(player.currPiece), old(player.DropPos())), old(Snapshot()))
      ensures !prevented && old(player.DropCount()) < options.placementCollisions ==>
        Quiet() == old(Quiet()) && player.pos == old(player.DropPos()) &&
        player.collided == old(player.DropCount()) && player.currPiece == old(player.currPiece)
    {
      if prevented {
        return;
      }
      ghost var before := Snapshot();
      var ended := player.Drop();
      assert Snapshot() == before;
      UpdateBoard();
      if ended {
        End(false);
      }
    }

    /** hardDrop: drop until a blocked drop has been counted (DropToRest),
        then force the counter to the threshold so that the update pass locks
        the piece at its landing row. */
    method HardDrop()
      requires Valid() && player.currPiece.Some?
      requires player.collided > 0 ||
               (HasCell(player.currPiece.value.shape) && !player.DropOver() && player.pos.y >= 0)
      modifies this`board, this`score, this`rowsCleared, this`level, this`holdUsed,
               player`board, player`pos, player`collided, player`currPiece, player`nextPieces, player`draws
      ensures Valid()
      ensures var s := old(player.currPiece.value.shape);
              var row := if old(player.collided) > 0 then old(player.pos.y)
                         else LandingRow(old(board), s, old(player.pos.x), old(player.pos.y));
              Locked() == AfterLock(WithPlayer(old(board), old(player.currPiece), Pos(old(player.pos.x), row)), old(Snapshot()))
    {
      ghost var before := Snapshot();
      DropToRest();
      player.collided := options.placementCollisions;
      assert Snapshot() == before;
      UpdateBoard();
    }

    /** The loop of hardDrop: drop until the counter is positive. With a zero
        counter it ends only for a piece that has a cell and is not stuck at
        the top, and that is required here. A piece stuck at the top makes
        drop report game over on every turn. A shape with no cell, such as
        the reset placeholder, never collides (NoCellNeverCollides), so every
        drop succeeds and the row grows without bound. In both cases the
        counter never rises. pos.y >= 0 holds in every reachable state
        (rows start at 0 and only grow). It is required for the proof, not
        because the source would loop without it. Under the requirement the
        loop's end() call is never reached. The piece ends at its landing
        row, or where it was when the counter was already positive. */
    method DropToRest()
      requires player.currPiece.Some?
      requires player.collided > 0 ||
               (HasCell(player.currPiece.value.shape) && !player.DropOver() && player.pos.y >= 0)
      modifies player`pos, player`collided
      ensures player.collided > 0
      ensures player.pos == Pos(old(player.pos.x),
        if old(player.collided) > 0 then old(player.pos.y)
        else LandingRow(player.board, player.currPiece.value.shape, old(player.pos.x), old(player.pos.y)))
    {
      ghost var s := player.currPiece.value.shape;
      ghost var x := player.pos.x;
      ghost var row := if player.collided > 0 then player.pos.y else LandingRow(player.board, s, x, player.pos.y);
      while player.collided <= 0
        invariant player.pos.x == x && old(player.pos.y) <= player.pos.y
        invariant player.collided <= 0 ==>
          HasCell(s) && LandingRow(player.board, s, x, player.pos.y) == row &&
          player.pos.y >= 0 && !player.DropOver()
        invariant player.collided > 0 ==> player.pos.y == row
        decreases |player.board| - player.pos.y, 1 - player.collided
      {
        ghost var y := player.pos.y;
        if !Collides(player.board, s, x, y + 1) {
          FreeRowOnBoard(player.board, s, x, y + 1);
        }
        var over := player.Drop();
        assert !over;
      }
    }

    /** hold: at most once per placed piece, and only when holding is
        enabled: the player holds, the update pass runs, and holding is used
        up for this piece. */
    method Hold()
      requires Valid()
      modifies this`board, this`score, this`rowsCleared, this`level, this`holdUsed,
               player`board, player`pos, player`collided, player`currPiece, player`nextPieces, player`draws,
               player`heldPiece
      ensures Valid()
      ensures old(holdUsed) || !options.hold ==> unchanged(this) && unchanged(player)
      ensures !old(holdUsed) && options.hold ==> holdUsed && player.heldPiece == old(player.currPiece)
      ensures !old(holdUsed) && options.hold &&
              (options.resetOnHold || old(player.collided) < options.placementCollisions) &&
              options.placementCollisions > 0 ==>
        board == old(board) && score == old(score) && rowsCleared == old(rowsCleared) && level == old(level) &&
        player.currPiece == (if old(player.heldPiece).None? then Some(old(player.PulledPiece())) else old(player.heldPiece)) &&
        player.nextPieces == (if old(player.heldPiece).None? then old(player.QueueAfterPull()) else old(player.nextPieces)) &&
        player.draws == (if old(player.heldPiece).None? then old(player.DrawsAfterPull()) else old(player.draws)) &&
        player.pos == (if options.resetOnHold then player.Spawn() else old(player.pos)) &&
        player.collided == (if options.resetOnHold then 0 else old(player.collided))
    {
      if holdUsed || !options.hold {
        return;
      }
      player.Hold();
      UpdateBoard();
      holdUsed := true;
    }
  }
}
