/** Piece counts, score and the draw test of engine.py. */
module Scoring {
  import opened Board
  import Engine

  /** The dictionary `count_pieces` returns, keyed 'B', 'BK', 'R', 'RK'. */
  datatype PieceCounts = PieceCounts(blackMen: nat, blackKings: nat, redMen: nat, redKings: nat)

  /** The dictionary `calculate_score` returns, keyed 'B' and 'R'. */
  datatype Score = Score(black: nat, red: nat)

  /** `count_pieces`: how many cells hold each of the four pieces. */
  function CountPieces(b: Board): (n: PieceCounts)
    ensures n.blackMen == multiset(b)[Man(Black)] && n.blackKings == multiset(b)[King(Black)]
    ensures n.redMen == multiset(b)[Man(Red)] && n.redKings == multiset(b)[King(Red)]
    ensures n.blackMen + n.blackKings + n.redMen + n.redKings + multiset(b)[Empty] == 64
  {
    CellsAccounted(b);
    PieceCounts(CountCell(b, Man(Black)), CountCell(b, King(Black)), CountCell(b, Man(Red)), CountCell(b, King(Red)))
  }

  /** Every cell is one of the five contents, so their counts add up to the length. */
  lemma {:induction false} CellsAccounted(s: seq<Cell>)
    ensures CountCell(s, Empty) + CountCell(s, Man(Black)) + CountCell(s, King(Black))
          + CountCell(s, Man(Red)) + CountCell(s, King(Red)) == |s|
    decreases |s|
  {
    if |s| > 0 {
      var init := s[..|s| - 1];
      CellsAccounted(init);
      CountLast(s, Empty);
      CountLast(s, Man(Black));
      CountLast(s, King(Black));
      CountLast(s, Man(Red));
      CountLast(s, King(Red));
      OneOfFive(s[|s| - 1]);
    }
  }

  /** A cell is empty or one of the four pieces. */
  lemma OneOfFive(x: Cell)
    ensures x == Empty || x == Man(Black) || x == King(Black) || x == Man(Red) || x == King(Red)
  {
    match x
    case Empty =>
    case Man(c) => assert c == Black || c == Red;
    case King(c) => assert c == Black || c == Red;
  }

  /** Counting a non-empty sequence: its prefix plus its last cell. */
  lemma CountLast(s: seq<Cell>, x: Cell)
    requires |s| > 0
    ensures CountCell(s, x) == CountCell(s[..|s| - 1], x) + (if s[|s| - 1] == x then 1 else 0)
  {
  }

  /** What a piece is worth to side `q`: a man 1, a king 3, anything else 0. */
  function Value(x: Cell, q: Color): nat {
    match x
    case Man(col) => if col == q then 1 else 0
    case King(col) => if col == q then 3 else 0
    case Empty => 0
  }

  /** The total worth of side `q`'s pieces, summed square by square. */
  function Material(s: seq<Cell>, q: Color): nat
    decreases |s|
  {
    if |s| == 0 then 0 else Material(s[..|s| - 1], q) + Value(s[|s| - 1], q)
  }

  /** `calculate_score`: one point per man and three per king. */
  function CalculateScore(n: PieceCounts): (s: Score)
    ensures s.black >= n.blackMen + n.blackKings && s.red >= n.redMen + n.redKings
  {
    Score(n.blackMen * 1 + n.blackKings * 3, n.redMen * 1 + n.redKings * 3)
  }

  /** The material of a sequence in terms of its piece counts. */
  lemma {:induction false} MaterialCounts(s: seq<Cell>, q: Color)
    ensures Material(s, q) == CountCell(s, Man(q)) + 3 * CountCell(s, King(q))
    decreases |s|
  {
    if |s| > 0 {
      MaterialCounts(s[..|s| - 1], q);
    }
  }

  /** Each side's score is the worth of its pieces on the board. */
  lemma ScoreIsMaterial(b: Board)
    ensures CalculateScore(CountPieces(b)).black == Material(b, Black)
    ensures CalculateScore(CountPieces(b)).red == Material(b, Red)
  {
    MaterialCounts(b, Black);
    MaterialCounts(b, Red);
  }

  /** `detect_draw`: at least two kings in all and at most two men in all.
      Kings are not part of the second count. */
  function DetectDraw(n: PieceCounts): (draw: bool)
    ensures draw ==> n.blackKings + n.redKings >= 2
  {
    var kings := n.blackKings + n.redKings;
    var total := n.blackMen + n.redMen;
    kings >= 2 && total <= 2
  }

  /** The squares of `s` holding a king, and those holding a man. */
  function KingSquares(s: seq<Cell>): set<nat> {
    set i: nat | i < |s| && s[i].King?
  }

  function ManSquares(s: seq<Cell>): set<nat> {
    set i: nat | i < |s| && s[i].Man?
  }

  /** Counting squares agrees with counting cells. */
  lemma {:induction false} SquaresCounted(s: seq<Cell>)
    ensures |KingSquares(s)| == CountCell(s, King(Black)) + CountCell(s, King(Red))
    ensures |ManSquares(s)| == CountCell(s, Man(Black)) + CountCell(s, Man(Red))
    decreases |s|
  {
    if |s| > 0 {
      var init := s[..|s| - 1];
      var last := |s| - 1;
      SquaresCounted(init);
      CountLast(s, Man(Black));
      CountLast(s, King(Black));
      CountLast(s, Man(Red));
      CountLast(s, King(Red));
      OneOfFive(s[last]);
      KingSquaresSnoc(s);
      ManSquaresSnoc(s);
      assert last !in KingSquares(init) && last !in ManSquares(init);
    }
  }

  /** The king squares of a sequence: those of its prefix, plus the last square if it holds a king. */
  lemma KingSquaresSnoc(s: seq<Cell>)
    requires |s| > 0
    ensures KingSquares(s) == KingSquares(s[..|s| - 1]) + (if s[|s| - 1].King? then {|s| - 1} else {})
  {
    var init, last := s[..|s| - 1], |s| - 1;
    forall i | i in KingSquares(s) ensures i in KingSquares(init) + (if s[last].King? then {last} else {}) {
      if i < last { assert s[i] == init[i]; }
    }
    forall i | i in KingSquares(init) ensures i in KingSquares(s) {
      assert s[i] == init[i];
    }
  }

  /** The man squares of a sequence: those of its prefix, plus the last square if it holds a man. */
  lemma ManSquaresSnoc(s: seq<Cell>)
    requires |s| > 0
    ensures ManSquares(s) == ManSquares(s[..|s| - 1]) + (if s[|s| - 1].Man? then {|s| - 1} else {})
  {
    var init, last := s[..|s| - 1], |s| - 1;
    forall i | i in ManSquares(s) ensures i in ManSquares(init) + (if s[last].Man? then {last} else {}) {
      if i < last { assert s[i] == init[i]; }
    }
    forall i | i in ManSquares(init) ensures i in ManSquares(s) {
      assert s[i] == init[i];
    }
  }

  /** A board is drawn exactly when it holds two or more kings and at most two men. */
  lemma DrawOnBoard(b: Board)
    ensures DetectDraw(CountPieces(b)) <==> |KingSquares(b)| >= 2 && |ManSquares(b)| <= 2
  {
    SquaresCounted(b);
  }

  /** Row r of the starting position, as a flat slice. */
  lemma StartRow(r: int)
    requires 0 <= r < 8
    ensures Engine.CreateBoard()[8 * r..8 * r + 8] == StartRowCells(r)
  {
    var b := Engine.CreateBoard();
    forall c | 0 <= c < 8
      ensures b[8 * r..8 * r + 8][c] == Engine.StartCell(r, c)
    {
      IndexOf(8 * r + c);
    }
  }

  /** A row alternating `x` and `y` holds four of each. */
  lemma AlternatingRow(x: Cell, y: Cell)
    ensures multiset(Alternate(x, y)) == multiset{x, y} + multiset{x, y} + multiset{x, y} + multiset{x, y}
  {
    var pair := [x, y];
    var m := multiset(pair);
    assert m == multiset{x, y};
    assert Alternate(x, y) == pair + pair + pair + pair;
    assert multiset(pair + pair) == m + m;
    assert multiset(pair + pair + pair) == m + m + m;
    assert multiset(pair + pair + pair + pair) == m + m + m + m;
  }

  /** Row r of the starting position. */
  function StartRowCells(r: int): seq<Cell> {
    seq(8, c => Engine.StartCell(r, c))
  }

  /** Rows r..7 of the starting position, one after the other. */
  function StartRows(r: int): seq<Cell>
    requires 0 <= r <= 8
    decreases 8 - r
  {
    if r == 8 then [] else StartRowCells(r) + StartRows(r + 1)
  }

  /** The flat starting board from row r on is rows r..7 concatenated. */
  lemma {:induction false} StartSuffix(r: int)
    requires 0 <= r <= 8
    ensures Engine.CreateBoard()[8 * r..] == StartRows(r)
    decreases 8 - r
  {
    if r < 8 {
      var b := Engine.CreateBoard();
      StartRow(r);
      StartSuffix(r + 1);
      assert b[8 * r..] == b[8 * r..8 * r + 8] + b[8 * (r + 1)..];
    }
  }

  function Alternate(x: Cell, y: Cell): seq<Cell> {
    [x, y, x, y, x, y, x, y]
  }

  lemma StartRowPattern(r: int)
    ensures StartRowCells(r) == Alternate(Engine.StartCell(r, 0), Engine.StartCell(r, 1))
  {
    var row := StartRowCells(r);
    var x, y := Engine.StartCell(r, 0), Engine.StartCell(r, 1);
    assert row[0] == x && row[1] == y;
    assert row[2] == x by { assert (r + 2) % 2 == r % 2; }
    assert row[3] == y by { assert (r + 3) % 2 == (r + 1) % 2; }
    assert row[4] == x by { assert (r + 4) % 2 == r % 2; }
    assert row[5] == y by { assert (r + 5) % 2 == (r + 1) % 2; }
    assert row[6] == x by { assert (r + 6) % 2 == r % 2; }
    assert row[7] == y by { assert (r + 7) % 2 == (r + 1) % 2; }
  }

  /** A row alternating `x` and `y` holds four of each of its two contents. */
  lemma AlternatingCounts(x: Cell, y: Cell, z: Cell)
    ensures multiset(Alternate(x, y))[z] == (if x == z then 4 else 0) + (if y == z then 4 else 0)
  {
    AlternatingRow(x, y);
    var m := multiset{x, y};
    assert m[z] == (if x == z then 1 else 0) + (if y == z then 1 else 0);
    assert (m + m + m + m)[z] == 4 * m[z];
  }

  /** Row r holds four of each of its first two squares' contents. */
  lemma StartRowCounts(r: int, z: Cell)
    ensures multiset(StartRowCells(r))[z]
      == (if Engine.StartCell(r, 0) == z then 4 else 0) + (if Engine.StartCell(r, 1) == z then 4 else 0)
  {
    StartRowPattern(r);
    AlternatingCounts(Engine.StartCell(r, 0), Engine.StartCell(r, 1), z);
  }

  /** Row r holds four Black men in rows 0-2, four Red men in rows 5-7, and no kings. */
  lemma StartRowMen(r: int)
    requires 0 <= r < 8
    ensures multiset(StartRowCells(r))[Man(Black)] == if r < 3 then 4 else 0
    ensures multiset(StartRowCells(r))[Man(Red)] == if r > 4 then 4 else 0
    ensures multiset(StartRowCells(r))[King(Black)] == 0 && multiset(StartRowCells(r))[King(Red)] == 0
  {
    StartRowCounts(r, Man(Black));
    StartRowCounts(r, Man(Red));
    StartRowCounts(r, King(Black));
    StartRowCounts(r, King(Red));
    assert r % 2 == 1 <==> (r + 1) % 2 == 0;
  }

  /** Black men in rows r..7 of the starting position, and Red men. */
  lemma {:induction false} StartRowsCounts(r: int)
    requires 0 <= r <= 8
    ensures multiset(StartRows(r))[Man(Black)] == 4 * (if r < 3 then 3 - r else 0)
    ensures multiset(StartRows(r))[Man(Red)] == 4 * (if r < 5 then 3 else 8 - r)
    ensures multiset(StartRows(r))[King(Black)] == 0 && multiset(StartRows(r))[King(Red)] == 0
    decreases 8 - r
  {
    if r < 8 {
      StartRowsCounts(r + 1);
      StartRowMen(r);
      assert multiset(StartRows(r)) == multiset(StartRowCells(r)) + multiset(StartRows(r + 1));
    }
  }

  /** The starting position: twelve men a side and no kings. */
  lemma InitialCounts()
    ensures CountPieces(Engine.CreateBoard()) == PieceCounts(12, 0, 12, 0)
  {
    StartSuffix(0);
    StartRowsCounts(0);
    assert Engine.CreateBoard()[0..] == Engine.CreateBoard();
  }
}
