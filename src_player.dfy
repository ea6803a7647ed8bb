/** The player of the TypeScript sources, an earlier revision of the engine:
    the live piece is a bare shape, the hold slot and the next-queue hold
    piece-type keys, there is no collision counter, `start` does not move the
    piece to the spawn position, and `hold` is a stub. Random keys come from
    the oracle `rand`: the k-th draw is the key of catalog entry
    `rand(k) % |catalog|`. The rotation is Pieces.Rotate, which this
    revision shares with the bundle. */
module SrcPlayer {
  import opened Optional
  import opened Grid
  import opened Pieces
  import opened Queue
  import opened Config

  /** getRandomKey with the k-th random number: one of the catalog's keys. */
  function RandomKey(catalog: seq<PieceType>, rand: nat -> nat, k: nat): (key: string)
    requires |catalog| > 0
    ensures IsKey(catalog, key)
  {
    var a := rand(k) % |catalog|;
    catalog[a].key
  }

  /** Every occupied slot of the queue holds a catalog key. */
  predicate KeysOnly(catalog: seq<PieceType>, q: seq<Option<string>>) {
    forall i :: 0 <= i < |q| && q[i].Some? ==> IsKey(catalog, q[i].value)
  }

  class Player {
    const options: Options
    /** The random oracle and how many draws have been taken from it. */
    const rand: nat -> nat
    var draws: nat
    /** None until start assigns it (the field is declared, not initialised). */
    var currPiece: Option<Shape>
    var heldPiece: Option<string>
    var nextPieces: seq<Option<string>>
    var pos: Pos

    /** The queue has the configured size and holds only catalog keys. */
    ghost predicate Valid()
      reads this`nextPieces
    {
      ValidOptions(options) && |nextPieces| == options.nextQueueSize &&
      KeysOnly(options.pieceTypes, nextPieces)
    }

    /** The spawn position resetPlayer moves to. */
    function Spawn(): Pos {
      Pos(SpawnX(options), 0)
    }

    /** The key the k-th draw yields. */
    function KeyAt(k: nat): string
      requires |options.pieceTypes| > 0
    {
      RandomKey(options.pieceTypes, rand, k)
    }

    /** What the next getNextPiece returns: the refill is drawn first (when
        the queue size is positive), the fallback after it. It is a catalog
        key. */
    function PulledKey(): (key: string)
      reads this`nextPieces, this`draws
      requires Valid()
      ensures IsKey(options.pieceTypes, key)
    {
      Pulled(nextPieces, KeyAt(if options.nextQueueSize > 0 then draws + 1 else draws))
    }

    /** The queue after the next getNextPiece. */
    function QueueAfterPull(): seq<Option<string>>
      reads this`nextPieces, this`draws
      requires |options.pieceTypes| > 0
    {
      Shifted(nextPieces, options.nextQueueSize, KeyAt(draws))
    }

    /** The draw count after the next getNextPiece. */
    function DrawsAfterPull(): nat
      reads this`nextPieces, this`draws
    {
      draws + (if options.nextQueueSize > 0 then 1 else 0) + (if Front(nextPieces).None? then 1 else 0)
    }

    /** The constructor: a queue of holes and the origin position. */
    constructor (options: Options, rand: nat -> nat)
      requires ValidOptions(options)
      ensures Valid() && this.options == options && this.rand == rand
      ensures draws == 0 && pos == Pos(0, 0) && currPiece == None && heldPiece == None
      ensures nextPieces == Holes(options.nextQueueSize)
    {
      this.options := options;
      this.rand := rand;
      draws := 0;
      nextPieces := Holes(options.nextQueueSize);
      pos := Pos(0, 0);
      currPiece := None;
      heldPiece := None;
    }

    /** getRandomPiece: take the next draw; the result is a catalog key. */
    method GetRandomPiece() returns (key: string)
      requires ValidOptions(options)
      modifies this`draws
      ensures key == KeyAt(old(draws)) && draws == old(draws) + 1
      ensures IsKey(options.pieceTypes, key)
    {
      key := RandomKey(options.pieceTypes, rand, draws);
      draws := draws + 1;
    }

    /** start: the live piece is the catalog shape of a drawn key, and every
        queue slot is filled with the following draws. The position is not
        touched. */
    method Start()
      requires Valid()
      modifies this`currPiece, this`nextPieces, this`draws
      ensures Valid() && Filled(nextPieces)
      ensures currPiece == Some(ShapeOf(options.pieceTypes, KeyAt(old(draws))))
      ensures forall i :: 0 <= i < |nextPieces| ==> nextPieces[i] == Some(KeyAt(old(draws) + 1 + i))
      ensures draws == old(draws) + 1 + options.nextQueueSize
    {
      var key := GetRandomPiece();
      currPiece := Some(ShapeOf(options.pieceTypes, key));
      for i := 0 to options.nextQueueSize
        invariant currPiece == Some(ShapeOf(options.pieceTypes, KeyAt(old(draws))))
        invariant Valid()
        invariant draws == old(draws) + 1 + i
        invariant forall k :: 0 <= k < i ==> nextPieces[k] == Some(KeyAt(old(draws) + 1 + k))
      {
        var q := GetRandomPiece();
        nextPieces := nextPieces[i := Some(q)];
      }
    }

    /** reset: an empty hold slot, a queue of holes and the placeholder shape
        with one empty row; the position is not touched. */
    method Reset()
      requires Valid()
      modifies this`heldPiece, this`nextPieces, this`currPiece
      ensures Valid()
      ensures heldPiece == None && nextPieces == Holes(options.nextQueueSize) && currPiece == Some([[]])
    {
      heldPiece := None;
      nextPieces := Holes(options.nextQueueSize);
      currPiece := Some([[]]);
    }

    /** resetPlayer: back to the spawn position, with the catalog shape of
        the key getNextPiece pulls as the live piece. */
    method ResetPlayer()
      requires Valid()
      modifies this`pos, this`currPiece, this`nextPieces, this`draws
      ensures Valid() && pos == Spawn()
      ensures currPiece == Some(ShapeOf(options.pieceTypes, old(PulledKey())))
      ensures nextPieces == old(QueueAfterPull()) && draws == old(DrawsAfterPull())
    {
      pos := Spawn();
      var key := GetNextPiece();
      currPiece := Some(ShapeOf(options.pieceTypes, key));
    }

    /** hold: a stub that returns in both branches; its frame is empty. */
    method Hold() {
      if !options.hold {
        return;
      }
    }

    /** getNextPiece: shift the front slot out, push a fresh key when the
        queue size is positive, and return the former front, or a fresh key
        when it was a hole (always a catalog key). */
    method GetNextPiece() returns (key: string)
      requires Valid()
      modifies this`nextPieces, this`draws
      ensures Valid() && IsKey(options.pieceTypes, key)
      ensures key == old(PulledKey())
      ensures nextPieces == old(QueueAfterPull()) && draws == old(DrawsAfterPull())
    {
      var front := Front(nextPieces);
      nextPieces := if |nextPieces| > 0 then nextPieces[1..] else [];
      if options.nextQueueSize > 0 {
        var r := GetRandomPiece();
        nextPieces := nextPieces + [Some(r)];
      }
      if front.Some? {
        key := front.value;
      } else {
        key := GetRandomPiece();
      }
    }
  }
}
