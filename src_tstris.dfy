/** The game of the TypeScript sources, an earlier revision of the engine.
    Its updateBoard asks the player for a `collided` flag and its
    getBoardWithPlayer for the live piece's `.shape`, neither of which the
    player of this revision has (see SrcPlayer): both are modelled as
    written and as evidently intended. Its handleClearedRows updates the
    score only; cleared rows and the level never change. */
module SrcTstris {
  import opened Optional
  import opened Grid
  import opened Pieces
  import opened Queue
  import opened Config
  import opened SrcPlayer

  /** 'paused' is part of the declared status type but is never assigned. */
  datatype Status = Idle | Playing | Ended

  /** The board with the live shape stamped on it when there is one. */
  function WithShape(b: Board, piece: Option<Shape>, pos: Pos): Board {
    if piece.None? then b else Overlay(b, piece.value, pos.x, pos.y)
  }

  class Tstris {
    const options: Options
    const scoreFunction: ScoreArgs -> int
    const player: Player
    var board: Board
    var score: int
    var rowsCleared: nat
    var level: int
    var status: Status

    /** The player shares the game's options. */
    ghost predicate Valid()
      reads player`nextPieces
    {
      player.Valid() && player.options == options
    }

    /** The constructor: the initial board (a copy of the configured default
        board, or the generated one), the start level and a fresh player. */
    constructor (options: Options, rand: nat -> nat, scoreFunction: ScoreArgs -> int)
      requires ValidOptions(options)
      ensures Valid() && fresh(player) && this.options == options && this.scoreFunction == scoreFunction
      ensures board == InitialBoard(options) && status == Idle
      ensures score == 0 && rowsCleared == 0 && level == options.startLevel
      ensures player.currPiece == None && player.pos == Pos(0, 0) && player.rand == rand && player.draws == 0
      ensures player.nextPieces == Holes(options.nextQueueSize) && player.heldPiece == None
    {
      this.options := options;
      this.scoreFunction := scoreFunction;
      level := options.startLevel;
      rowsCleared := 0;
      score := 0;
      status := Idle;
      board := InitialBoard(options);
      player := new Player(options, rand);
    }

    /** start: the player draws its pieces and the game is playing. */
    method Start()
      requires Valid()
      modifies this`status, player`currPiece, player`nextPieces, player`draws
      ensures Valid() && status == Playing && Filled(player.nextPieces)
      ensures player.currPiece == Some(ShapeOf(options.pieceTypes, player.KeyAt(old(player.draws))))
      ensures forall i :: 0 <= i < |player.nextPieces| ==>
                player.nextPieces[i] == Some(player.KeyAt(old(player.draws) + 1 + i))
      ensures player.draws == old(player.draws) + 1 + options.nextQueueSize
    {
      player.Start();
      status := Playing;
    }

    /** end: the game is over; with `reset`, it is reset and idle again. */
    method End(reset: bool)
      requires Valid()
      modifies this`status, this`board, player`heldPiece, player`nextPieces, player`currPiece
      ensures Valid()
      ensures !reset ==> status == Ended && board == old(board) && unchanged(player)
      ensures reset ==> status == Idle && board == InitialBoard(options) && player.heldPiece == None &&
                        player.nextPieces == Holes(options.nextQueueSize) && player.currPiece == Some([[]])
    {
      status := Ended;
      if reset {
        Reset();
      }
    }

    /** reset: a reset player, the initial board again and idle status. */
    method Reset()
      requires Valid()
      modifies this`status, this`board, player`heldPiece, player`nextPieces, player`currPiece
      ensures Valid()
      ensures status == Idle && board == InitialBoard(options) && player.heldPiece == None &&
              player.nextPieces == Holes(options.nextQueueSize) && player.currPiece == Some([[]])
    {
      player.Reset();
      SetBoard(InitialBoard(options));
      status := Idle;
    }

    /** getBoard: a copy of the board (boards are values here). */
    function GetBoard(): Board
      reads this`board
    {
      board
    }

    /** setBoard. Its write of `player.board` is not modelled: the player of
        this revision declares no board and never reads one. */
    method SetBoard(value: Board)
      modifies this`board
      ensures board == value
    {
      board := value;
    }

    /** getBoardWithPlayer as evidently intended: the board with the live
        shape's non-empty cells written over it. */
    method GetBoardWithPlayer() returns (b: Board)
      ensures b == WithShape(board, player.currPiece, player.pos)
    {
      b := GetBoard();
      if player.currPiece.None? {
        return;
      }
      b := StampPiece(b, player.currPiece.value, player.pos.x, player.pos.y);
    }

    /** getBoardWithPlayer as written: the live piece is a shape, whose
        `.shape` is undefined, so once there is a live piece the call throws
        (None); before that it returns the board. */
    method GetBoardWithPlayerAsWritten() returns (r: Option<Board>)
      ensures player.currPiece.None? <==> r == Some(board)
      ensures player.currPiece.Some? <==> r.None?
    {
      var b := GetBoard();
      if player.currPiece.None? {
        return Some(b);
      }
      return None;
    }

    /** handleClearedRows: clear the full rows of `newBoard` and add the
        score policy's award for them. */
    method HandleClearedRows(newBoard: Board) returns (cleared: Board)
      modifies this`score
      ensures cleared == ClearRows(newBoard)
      ensures score == old(score) + scoreFunction(ScoreArgs(|FullRows(newBoard)|, level, false))
    {
      var rows;
      cleared, rows := ClearFullRows(newBoard);
      score := score + scoreFunction(ScoreArgs(|rows|, level, false));
    }

    /** updateBoard as evidently intended, with the player's collision flag
        passed in: on a collision the stamped board with its full rows
        cleared becomes the board, the award is added and the player is
        reset; otherwise nothing changes. */
    method UpdateBoard(collided: bool)
      requires Valid()
      modifies this`board, this`score, player`pos, player`currPiece, player`nextPieces, player`draws
      ensures Valid()
      ensures collided ==>
        var stamped := WithShape(old(board), old(player.currPiece), old(player.pos));
        board == ClearRows(stamped) &&
        score == old(score) + scoreFunction(ScoreArgs(|FullRows(stamped)|, level, false)) &&
        player.pos == player.Spawn() &&
        player.currPiece == Some(ShapeOf(options.pieceTypes, old(player.PulledKey()))) &&
        player.nextPieces == old(player.QueueAfterPull()) &&
        player.draws == old(player.DrawsAfterPull())
      ensures !collided ==> board == old(board) && score == old(score) && unchanged(player)
    {
      if collided {
        var stamped := GetBoardWithPlayer();
        var cleared := HandleClearedRows(stamped);
        SetBoard(cleared);
        player.ResetPlayer();
      } else {
        SetBoard(GetBoard());
      }
    }

    /** updateBoard as written: the player has no `collided` field, the
        test reads undefined, and the pass always takes the branch that
        keeps the board, whether or not the piece has landed. */
    method UpdateBoardAsWritten()
      modifies this`board
      ensures board == old(board)
    {
      SetBoard(GetBoard());
    }
  }

  /** A fresh game with the default options has the 20-row, 10-column board
      of empty cells. */
  method FreshDefaultBoard(rand: nat -> nat, scoreFunction: ScoreArgs -> int) returns (b: Board)
    ensures |b| == 20 && forall r :: 0 <= r < 20 ==> |b[r]| == 10
    ensures forall r, c :: 0 <= r < 20 && 0 <= c < 10 ==> b[r][c] == Empty
  {
    DefaultOptionsValid();
    var game := new Tstris(DefaultOptions, rand, scoreFunction);
    b := game.GetBoard();
  }

  /** Once a game has started, the getBoardWithPlayer as written throws. */
  method StartedGameThrows(rand: nat -> nat, scoreFunction: ScoreArgs -> int) returns (r: Option<Board>)
    ensures r.None?
  {
    DefaultOptionsValid();
    var game := new Tstris(DefaultOptions, rand, scoreFunction);
    game.Start();
    r := game.GetBoardWithPlayerAsWritten();
  }
}
