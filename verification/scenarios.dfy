/** Worked positions for the root engine: the opening steps, a man's jump
    and a flying king's capture, each stated as a lemma about the model. */
module Scenarios {
  import opened Board
  import Engine

  function EmptyBoard(): Board {
    seq(64, i => Empty)
  }

  /** From the starting position Black's man on (2, 1) may step to (3, 0) or
      (3, 2); the same step is refused in capture mode and on Red's behalf. */
  lemma OpeningSteps()
    ensures Engine.IsValidMove(Engine.CreateBoard(), 2, 1, 3, 2, Black, false)
    ensures Engine.IsValidMove(Engine.CreateBoard(), 2, 1, 3, 0, Black, false)
    ensures !Engine.IsValidMove(Engine.CreateBoard(), 2, 1, 3, 2, Black, true)
    ensures !Engine.IsValidMove(Engine.CreateBoard(), 2, 1, 3, 2, Red, false)
  {
  }

  /** A lone Black man on (3, 2) next to a Red man on (4, 3). */
  function JumpBoard(): Board {
    Set(Set(EmptyBoard(), 3, 2, Man(Black)), 4, 3, Man(Red))
  }

  lemma JumpBoardCells()
    ensures Get(JumpBoard(), 3, 2) == Man(Black) && Get(JumpBoard(), 4, 3) == Man(Red)
    ensures forall r, c :: InBounds(r, c) && (r, c) != (3, 2) && (r, c) != (4, 3) ==> Get(JumpBoard(), r, c) == Empty
  {
  }

  /** The man's only capture is the jump to (5, 4): any other jump passes
      over an empty square. */
  lemma ManJumpCaptures()
    ensures Engine.GetAvailableCaptures(JumpBoard(), 3, 2, Black) == [(5, 4)]
  {
    var b := JumpBoard();
    var caps := Engine.GetAvailableCaptures(b, 3, 2, Black);
    JumpBoardCells();
    assert Engine.IsValidMove(b, 3, 2, 5, 4, Black, true);
    forall t | t in caps
      ensures t == (5, 4)
    {
      OnlyJump(t.0, t.1);
    }
    OnlyElement(caps, (5, 4));
  }

  /** A valid capture of the man on (3, 2) lands on (5, 4). */
  lemma OnlyJump(er: int, ec: int)
    requires Engine.IsValidMove(JumpBoard(), 3, 2, er, ec, Black, true)
    ensures (er, ec) == (5, 4)
  {
    var b := JumpBoard();
    JumpBoardCells();
    Engine.IsValidMoveMatchesRules(b, 3, 2, er, ec, Black, true);
    var mid := ((3 + er) / 2, (2 + ec) / 2);
    assert HeldByOpponent(Get(b, mid.0, mid.1), Black);
    assert mid == (4, 3);
  }

  /** A duplicate-free list containing x and nothing else is [x]. */
  lemma OnlyElement<T>(s: seq<T>, x: T)
    requires Engine.Distinct(s) && x in s
    requires forall y :: y in s ==> y == x
    ensures s == [x]
  {
    if |s| > 1 {
      assert s[0] in s && s[1] in s;
    }
    assert s[0] in s;
  }

  /** On that board the man has exactly one capture, to (5, 4), and the
      jump removes the Red man. */
  lemma ManJump()
    ensures Engine.GetAvailableCaptures(JumpBoard(), 3, 2, Black) == [(5, 4)]
    ensures Get(Engine.MakeMove(JumpBoard(), 3, 2, 5, 4, Black, []).board, 4, 3) == Empty
    ensures Get(Engine.MakeMove(JumpBoard(), 3, 2, 5, 4, Black, []).board, 5, 4) == Man(Black)
  {
    var b := JumpBoard();
    JumpBoardCells();
    ManJumpCaptures();
    assert Engine.CapturedSquare(b, 3, 2, 5, 4, Black) == Engine.CaptureAt(4, 3) by {
      Engine.JumpPath(3, 2, 5, 4);
    }
  }

  /** A Black king on (2, 2) with a Red man on (4, 4) may land on (5, 5) or
      (6, 6) beyond it; a second piece on (6, 6) blocks (7, 7). */
  lemma FlyingKing()
    ensures var b := Set(Set(EmptyBoard(), 2, 2, King(Black)), 4, 4, Man(Red));
      && Engine.IsValidMove(b, 2, 2, 5, 5, Black, true)
      && Engine.IsValidMove(b, 2, 2, 6, 6, Black, true)
      && !Engine.IsValidMove(Set(b, 6, 6, Man(Red)), 2, 2, 7, 7, Black, true)
  {
    var b := Set(Set(EmptyBoard(), 2, 2, King(Black)), 4, 4, Man(Red));
    Engine.IsValidMoveMatchesRules(b, 2, 2, 6, 6, Black, true);
    var cells := Engine.CellsAt(b, Engine.PathSquares(2, 2, 6, 6));
    assert Engine.PathSquares(2, 2, 6, 6) == [(3, 3), (4, 4), (5, 5)];
    assert Engine.ExactlyOneOpponent(cells, Black) by {
      assert HeldByOpponent(cells[1], Black);
    }
    var b' := Set(b, 6, 6, Man(Red));
    var cells' := Engine.CellsAt(b', Engine.PathSquares(2, 2, 7, 7));
    assert Engine.PathSquares(2, 2, 7, 7) == [(3, 3), (4, 4), (5, 5), (6, 6)];
    assert cells'[1] != Empty && cells'[3] != Empty;
    Engine.IsValidMoveMatchesRules(b', 2, 2, 7, 7, Black, true);
  }

  /** A straight vertical move still steps its column left once per row: from
      (1, 7) to (4, 7) the walk visits (2, 6) and (3, 5), and from (5, 0) to
      (2, 0) it leaves the board, where Python reads columns -1 and -2 as 7
      and 6. */
  lemma VerticalWalk()
    ensures Engine.PathSquares(1, 7, 4, 7) == [(2, 6), (3, 5)]
    ensures Engine.PathSquares(5, 0, 2, 0) == [(4, 7), (3, 6)]
  {
  }
}
