/** The wall-kick search of rotatePiece, as a function: after rotating, try
    the current column, then shift by the ping-pong offsets +1, -2, +3, -4,
    ... (net displacements 0, +1, -1, +2, -2, ...) until the piece fits, and
    give up once the next positive offset would exceed the shape's width. */
module WallKick {
  import opened Optional
  import opened Grid

  /** The offset added to x after the k-th failed try: 1, -2, 3, -4, ... */
  function Off(k: nat): int {
    if k % 2 == 0 then k + 1 else -(k + 1)
  }

  /** The displacement from the starting column at the k-th try:
      0, +1, -1, +2, -2, ... */
  function Disp(k: nat): int {
    if k % 2 == 1 then (k + 1) / 2 else -(k / 2)
  }

  /** How many columns the search tries for a shape `w` cells wide: the
      least even number that is at least w. */
  function Tries(w: nat): nat {
    if w % 2 == 0 then w else w + 1
  }

  /** The offsets the loop can hold at its head: never 0, a positive one is
      at most w (a larger one ends the search), a negative one at most w + 1
      in magnitude. */
  predicate KickOffset(offset: int, w: nat) {
    offset != 0 && (offset > 0 ==> offset <= w) && (offset < 0 ==> -offset <= w + 1)
  }

  function Abs(n: int): nat {
    if n < 0 then -n else n
  }

  /** The loop of rotatePiece from a head state (column x, next offset):
      Some(final column) when a collision-free column is found, None when
      the rotation is to be undone. */
  function Kick(b: Board, s: Shape, y: int, x: int, offset: int, w: nat): Option<int>
    requires KickOffset(offset, w)
    decreases w + 2 - Abs(offset)
  {
    if !Collides(b, s, x, y) then Some(x)
    else
      var next := -(offset + (if offset > 0 then 1 else -1));
      if next > w then None else Kick(b, s, y, x + offset, next, w)
  }

  /** One step of the loop moves from the k-th try to the next one, and the
      search stops exactly when all Tries(w) columns have been tried. */
  lemma OffsetStep(k: nat, w: nat)
    requires w >= 1 && k < Tries(w)
    ensures KickOffset(Off(k), w)
    ensures -(Off(k) + (if Off(k) > 0 then 1 else -1)) == Off(k + 1)
    ensures Disp(k) + Off(k) == Disp(k + 1)
    ensures Off(k + 1) > w <==> k + 1 == Tries(w)
  {
    if k % 2 == 0 {
      assert (k + 1) % 2 == 1;
      assert Disp(k + 1) == (k + 2) / 2 == k / 2 + 1;
    } else {
      assert (k + 1) % 2 == 0;
      assert Disp(k + 1) == -((k + 1) / 2);
    }
  }

  /** The reference search: the first try, from the k-th on, at which the
      piece fits, or Tries(w) when none of them does. */
  function FirstFit(b: Board, s: Shape, y: int, x0: int, w: nat, k: nat): (m: nat)
    requires k <= Tries(w)
    ensures k <= m <= Tries(w)
    decreases Tries(w) - k
  {
    if k == Tries(w) || !Collides(b, s, x0 + Disp(k), y) then k
    else FirstFit(b, s, y, x0, w, k + 1)
  }

  /** FirstFit is first-fit: every earlier try collides, and the try it
      stops at, if any, fits. */
  lemma {:induction false} FirstFitScans(b: Board, s: Shape, y: int, x0: int, w: nat, k: nat)
    requires k <= Tries(w)
    ensures var m := FirstFit(b, s, y, x0, w, k);
      (forall l :: k <= l < m ==> Collides(b, s, x0 + Disp(l), y)) &&
      (m < Tries(w) ==> !Collides(b, s, x0 + Disp(m), y))
    decreases Tries(w) - k
  {
    if k < Tries(w) && Collides(b, s, x0 + Disp(k), y) {
      FirstFitScans(b, s, y, x0, w, k + 1);
      var m := FirstFit(b, s, y, x0, w, k);
      forall l | k <= l < m ensures Collides(b, s, x0 + Disp(l), y) {
        if l == k {}
      }
    }
  }

  /** The loop of rotatePiece, from its k-th try on, computes the reference
      search: it ends at the FirstFit column, or gives up exactly when no
      remaining try fits. */
  lemma {:induction false} KickIsFirstFit(b: Board, s: Shape, y: int, x0: int, w: nat, k: nat)
    requires w >= 1 && k < Tries(w)
    ensures KickOffset(Off(k), w)
    ensures var m := FirstFit(b, s, y, x0, w, k);
      Kick(b, s, y, x0 + Disp(k), Off(k), w) == if m < Tries(w) then Some(x0 + Disp(m)) else None
    decreases Tries(w) - k
  {
    OffsetStep(k, w);
    if Collides(b, s, x0 + Disp(k), y) && k + 1 < Tries(w) {
      KickIsFirstFit(b, s, y, x0, w, k + 1);
    }
  }

  /** The whole search started at column x0 with offset 1 (as rotatePiece
      does): Some(x) means x is the first collision-free column in the order
      x0, x0 + 1, x0 - 1, x0 + 2, ...; None means every one of the Tries(w)
      columns collides. */
  lemma KickSearch(b: Board, s: Shape, y: int, x0: int, w: nat)
    requires w >= 1
    ensures KickOffset(1, w)
    ensures var r := Kick(b, s, y, x0, 1, w);
      (r.Some? ==> !Collides(b, s, r.value, y) &&
                   exists m :: 0 <= m < Tries(w) && r.value == x0 + Disp(m) &&
                     forall l :: 0 <= l < m ==> Collides(b, s, x0 + Disp(l), y)) &&
      (r.None? ==> forall l :: 0 <= l < Tries(w) ==> Collides(b, s, x0 + Disp(l), y))
  {
    KickIsFirstFit(b, s, y, x0, w, 0);
    FirstFitScans(b, s, y, x0, w, 0);
  }

  /** The tried displacements are exactly the columns from -(Tries(w)/2 - 1)
      to Tries(w)/2 around the start, so a None result means every one of
      those columns collides. */
  lemma KickGivesUp(b: Board, s: Shape, y: int, x0: int, w: nat)
    requires w >= 1
    ensures KickOffset(1, w)
    ensures Kick(b, s, y, x0, 1, w).None? ==>
      forall x :: x0 - (Tries(w) / 2 - 1) <= x <= x0 + Tries(w) / 2 ==> Collides(b, s, x, y)
  {
    KickSearch(b, s, y, x0, w);
    if Kick(b, s, y, x0, 1, w).None? {
      forall x | x0 - (Tries(w) / 2 - 1) <= x <= x0 + Tries(w) / 2 ensures Collides(b, s, x, y) {
        var d := x - x0;
        var m: nat := if d > 0 then 2 * d - 1 else -2 * d;
        assert Disp(m) == d;
      }
    }
  }
}
