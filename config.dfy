/** Construction-time options of a game instance and their defaults. The
    user-supplied policy functions are not part of this record: the engine
    takes them as function-valued parameters. */
module Config {
  import opened Optional
  import opened Grid
  import opened Pieces

  datatype Options = Options(
    pieceTypes: seq<PieceType>,
    nextQueueSize: nat,
    resetOnHold: bool,
    hold: bool,
    width: nat,
    height: nat,
    placementCollisions: int,
    startLevel: int,
    defaultBoard: Option<Board>)

  /** What the model asks of a configuration: a non-empty catalog (a random
      draw from an empty one yields `undefined`), distinct keys (they are
      object keys), and an even width, so that the spawn column `width / 2 - 2`
      is a whole number. */
  predicate ValidOptions(o: Options) {
    |o.pieceTypes| > 0 && DistinctKeys(o.pieceTypes) && o.width % 2 == 0
  }

  /** The spawn column, `width / 2 - 2`, two columns left of the centre. */
  function SpawnX(o: Options): int {
    o.width / 2 - 2
  }

  /** `options.defaultBoard || generateDefaultBoard()` */
  function InitialBoard(o: Options): Board {
    o.defaultBoard.GetOr(DefaultBoard(o.height, o.width))
  }

  /** What the score policy is given; t-spins are never detected. */
  datatype ScoreArgs = ScoreArgs(rowsCleared: nat, level: int, tSpin: bool)

  /** What the level policy is given. */
  datatype LevelArgs = LevelArgs(totalRowsCleared: nat, currLevel: int)

  /** DEFAULT_SCORE_FUNCTION: 10 points per placement, cleared rows or not. */
  function DefaultScoreFunction(a: ScoreArgs): int {
    10
  }

  /** DEFAULT_LEVEL_FUNCTION: the level stays 1. */
  function DefaultLevelFunction(a: LevelArgs): int {
    1
  }

  /** DEFAULT_OPTIONS */
  const DefaultOptions: Options := Options(DefaultPieceTypes, 3, true, true, 10, 20, 3, 1, None)

  /** The defaults form a valid configuration: a 10 by 20 empty board, the
      spawn column 3, a queue of 3 and a lock threshold of 3. */
  lemma DefaultOptionsValid()
    ensures ValidOptions(DefaultOptions)
    ensures SpawnX(DefaultOptions) == 3
    ensures InitialBoard(DefaultOptions) == DefaultBoard(20, 10)
  {
    DefaultCatalogWellFormed();
  }
}
