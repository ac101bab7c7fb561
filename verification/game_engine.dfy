/** The simpler rules of game_engine/engine.py: no kings, no
    ownership test, both squares must be dark, and a direction per side that
    is the reverse of the root engine's. Its Black direction (towards row 0)
    is kept as written, although its own layout puts Black on rows 0-2. */
module GameEngine {
  import opened Board
  import Engine

  /** `create_board`: the same starting layout as the root engine. */
  function CreateBoard(): (b: Board)
    ensures b == Engine.CreateBoard()
  {
    seq(64, i => if (i / 8 + i % 8) % 2 == 1 then
                   if i / 8 < 3 then Man(Black) else if i / 8 > 4 then Man(Red) else Empty
                 else Empty)
  }

  /** The row step of a side: -1 for Black, +1 for Red. */
  function Direction(p: Color): int {
    if p == Black then -1 else 1
  }

  /** `is_valid_move`: a step of one row in the side's direction and one
      column, or a jump of two rows in that direction and two columns over
      an occupied midpoint that does not hold exactly the mover's man. The
      origin's contents are never examined. */
  function IsValidMove(b: Board, sr: int, sc: int, er: int, ec: int, p: Color): (ok: bool)
    ensures ok ==> InBounds(sr, sc) && InBounds(er, ec)
    ensures ok ==> Get(b, er, ec) == Empty && IsDark(sr, sc) && IsDark(er, ec)
    ensures ok ==> (er - sr == Direction(p) && Abs(ec - sc) == 1) || (er - sr == 2 * Direction(p) && Abs(ec - sc) == 2)
    ensures ok && er - sr == 2 * Direction(p) ==>
      Get(b, (sr + er) / 2, (sc + ec) / 2) != Empty && Get(b, (sr + er) / 2, (sc + ec) / 2) != Man(p)
  {
    if !(InBounds(sr, sc) && InBounds(er, ec)) then false
    else if Get(b, er, ec) != Empty || (sr + sc) % 2 != 1 || (er + ec) % 2 != 1 then false
    else
      var direction := Direction(p);
      if er == sr + direction && Abs(ec - sc) == 1 then true
      else if er == sr + 2 * direction && Abs(ec - sc) == 2 then
        var middle := Get(b, (sr + er) / 2, (sc + ec) / 2);
        middle != Empty && middle != Man(p)
      else false
  }

  /** The two step destinations from (sr, sc): one row in the side's
      direction, one column either way. */
  function StepTargets(sr: int, sc: int, p: Color): seq<(int, int)> {
    [(sr + Direction(p), sc - 1), (sr + Direction(p), sc + 1)]
  }

  /** The two jump destinations from (sr, sc): two rows in the side's
      direction, two columns either way. */
  function JumpTargets(sr: int, sc: int, p: Color): seq<(int, int)> {
    [(sr + 2 * Direction(p), sc - 2), (sr + 2 * Direction(p), sc + 2)]
  }

  /** The square half-way between two board squares holds a piece other than
      the mover's own man. */
  predicate JumpsOver(b: Board, sr: int, sc: int, er: int, ec: int, p: Color)
    requires InBounds(sr, sc) && InBounds(er, ec)
  {
    var mid := Get(b, (sr + er) / 2, (sc + ec) / 2);
    mid != Empty && mid != Man(p)
  }

  /** The accepted destinations from a dark square are exactly the empty
      board squares among the two step targets, and among the two jump
      targets those whose midpoint holds a piece other than the mover's man.
      Their darkness follows from the origin's; a light origin accepts
      nothing. */
  lemma ValidDestinations(b: Board, sr: int, sc: int, er: int, ec: int, p: Color)
    ensures IsValidMove(b, sr, sc, er, ec, p) <==>
      && InBounds(sr, sc) && IsDark(sr, sc)
      && InBounds(er, ec) && Get(b, er, ec) == Empty
      && ((er, ec) in StepTargets(sr, sc, p)
          || ((er, ec) in JumpTargets(sr, sc, p) && JumpsOver(b, sr, sc, er, ec, p)))
  {
    if InBounds(sr, sc) && IsDark(sr, sc) && InBounds(er, ec) {
      if (er, ec) in StepTargets(sr, sc, p) || (er, ec) in JumpTargets(sr, sc, p) {
        assert (er + ec) % 2 == (sr + sc) % 2;
      }
    }
  }

  /** No move goes against the side's direction, and none stays on its row. */
  lemma NeverBackward(b: Board, sr: int, sc: int, er: int, ec: int, p: Color)
    requires IsValidMove(b, sr, sc, er, ec, p)
    ensures p == Black ==> er < sr
    ensures p == Red ==> er > sr
  {
  }

  /** Validity does not depend on what the origin holds: an empty square or
      the other side's piece can be "moved" just as well. */
  lemma IgnoresOrigin(b: Board, sr: int, sc: int, er: int, ec: int, p: Color, x: Cell)
    requires InBounds(sr, sc)
    ensures IsValidMove(Set(b, sr, sc, x), sr, sc, er, ec, p) == IsValidMove(b, sr, sc, er, ec, p)
  {
    var b' := Set(b, sr, sc, x);
    if InBounds(er, ec) && er != sr {
      assert Get(b', er, ec) == Get(b, er, ec);
      if Abs(er - sr) == 2 && Abs(ec - sc) == 2 {
        var mr, mc := (sr + er) / 2, (sc + ec) / 2;
        assert mr != sr;
        assert Get(b', mr, mc) == Get(b, mr, mc);
      }
    }
  }

  /** On the starting board no Black man has a valid move: Black is set up
      on rows 0-2 but is sent towards row 0. */
  lemma BlackStuckAtStart(sr: int, sc: int, er: int, ec: int)
    requires InBounds(sr, sc) && Get(CreateBoard(), sr, sc) == Man(Black)
    ensures !IsValidMove(CreateBoard(), sr, sc, er, ec, Black)
  {
  }

  /** `make_move`: clear the midpoint of a two-row move, write the mover's
      man (not the moved piece) on the destination, and empty the origin. */
  function MakeMove(b: Board, sr: int, sc: int, er: int, ec: int, p: Color): (b': Board)
    requires InBounds(sr, sc) && InBounds(er, ec)
    ensures Get(b', sr, sc) == Empty
    ensures (sr, sc) != (er, ec) ==> Get(b', er, ec) == Man(p)
    ensures Abs(er - sr) == 2 ==> Get(b', (sr + er) / 2, (sc + ec) / 2) == Empty
    ensures forall r, c ::
      (InBounds(r, c) && (r, c) != (sr, sc) && (r, c) != (er, ec)
       && !(Abs(er - sr) == 2 && (r, c) == ((sr + er) / 2, (sc + ec) / 2)))
      ==> Get(b', r, c) == Get(b, r, c)
  {
    var cleared := if Abs(er - sr) == 2 then Set(b, (sr + er) / 2, (sc + ec) / 2, Empty) else b;
    Set(Set(cleared, er, ec, Man(p)), sr, sc, Empty)
  }

  /** The number of occupied squares. */
  function Occupied(b: Board): nat {
    64 - CountCell(b, Empty)
  }

  /** After a valid move the board has one piece on the destination, loses
      the jumped piece, and loses the origin's piece only if there was one. */
  lemma MoveOccupancy(b: Board, sr: int, sc: int, er: int, ec: int, p: Color)
    requires IsValidMove(b, sr, sc, er, ec, p)
    ensures Occupied(MakeMove(b, sr, sc, er, ec, p))
         == Occupied(b) + 1 - (if Abs(er - sr) == 2 then 1 else 0) - (if Get(b, sr, sc) != Empty then 1 else 0)
  {
    var jump := Abs(er - sr) == 2;
    var mr, mc := (sr + er) / 2, (sc + ec) / 2;
    var cleared := if jump then Set(b, mr, mc, Empty) else b;
    if jump {
      CountAfterSet(b, mr, mc, Empty, Empty);
    }
    var placed := Set(cleared, er, ec, Man(p));
    CountAfterSet(cleared, er, ec, Man(p), Empty);
    CountAfterSet(placed, sr, sc, Empty, Empty);
  }
}
