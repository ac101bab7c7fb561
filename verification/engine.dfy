/** The rules engine of engine.py: initial layout, promotion, move legality
    (steps, jumps and flying-king captures), move application, capture
    enumeration and the no-moves test. Every operation is a pure function of
    a board value; engine.py mutates its board in place, which here becomes
    returning the new board. */
module Engine {
  import opened Board

  // ---------------------------------------------------------------------------
  // Initial layout
  // ---------------------------------------------------------------------------

  /** What `create_board` puts on square (r, c). */
  function StartCell(r: int, c: int): Cell {
    if (r + c) % 2 == 1 then
      if r < 3 then Man(Black) else if r > 4 then Man(Red) else Empty
    else Empty
  }

  /** Black men on the dark squares of rows 0-2, Red men on the dark squares
      of rows 5-7, everything else empty. */
  function CreateBoard(): (b: Board)
    ensures forall r, c :: InBounds(r, c) && IsDark(r, c) && r < 3 ==> Get(b, r, c) == Man(Black)
    ensures forall r, c :: InBounds(r, c) && IsDark(r, c) && 4 < r ==> Get(b, r, c) == Man(Red)
    ensures forall r, c :: InBounds(r, c) && (!IsDark(r, c) || 3 <= r <= 4) ==> Get(b, r, c) == Empty
  {
    seq(64, i => StartCell(i / 8, i % 8))
  }

  // ---------------------------------------------------------------------------
  // Promotion
  // ---------------------------------------------------------------------------

  /** The far rank of each side: row 7 for Black, row 0 for Red. */
  predicate PromotionRow(row: int, p: Color) {
    (p == Black && row == 7) || (p == Red && row == 0)
  }

  /** `promote_to_king`: on the mover's far rank the square becomes the mover's
      king, whatever it held; elsewhere nothing changes. */
  function PromoteToKing(b: Board, row: int, col: int, p: Color): (b': Board)
    requires InBounds(row, col)
    ensures PromotionRow(row, p) ==> Get(b', row, col) == King(p)
    ensures !PromotionRow(row, p) ==> b' == b
    ensures forall r, c :: InBounds(r, c) && (r, c) != (row, col) ==> Get(b', r, c) == Get(b, r, c)
  {
    if p == Black && row == 7 then Set(b, row, col, King(Black))
    else if p == Red && row == 0 then Set(b, row, col, King(Red))
    else b
  }

  /** Promoting twice is promoting once. */
  lemma PromoteIdempotent(b: Board, row: int, col: int, p: Color)
    requires InBounds(row, col)
    ensures PromoteToKing(PromoteToKing(b, row, col, p), row, col, p) == PromoteToKing(b, row, col, p)
  {
    if PromotionRow(row, p) {
      var once := PromoteToKing(b, row, col, p);
      var twice := PromoteToKing(once, row, col, p);
      assert once == b[Index(row, col) := King(p)];
      assert twice == once[Index(row, col) := King(p)];
    }
  }

  /** A king stays a king: promotion never turns any square's king into a man. */
  lemma PromoteKeepsKings(b: Board, row: int, col: int, p: Color, r: int, c: int)
    requires InBounds(row, col) && InBounds(r, c)
    requires Get(b, r, c).King?
    ensures Get(PromoteToKing(b, row, col, p), r, c).King?
  {
  }

  // ---------------------------------------------------------------------------
  // Paths between two squares
  // ---------------------------------------------------------------------------

  /** `s` moved `k` squares towards `e`; engine.py steps by `1 if e > s else -1`. */
  function Advance(s: int, e: int, k: int): int {
    if e > s then s + k else s - k
  }

  /** Python's reading of a column index from -8 to -1 as counted from the end. */
  function PyIndex(c: int): int {
    if c < 0 then c + 8 else c
  }

  /** How many times the body of `while r != er and c != ec` runs when the walk
      starts one step from (sr, sc). When `ec == sc` the walk's column still
      steps left and never meets `ec`, so the row alone ends the walk. */
  function PathLength(sr: int, sc: int, er: int, ec: int): nat
    requires er != sr
  {
    if ec == sc then Abs(er - sr) - 1 else Min(Abs(er - sr), Abs(ec - sc)) - 1
  }

  /** The squares the walk of engine.py from (sr, sc) towards (er, ec) visits, in
      order, on rows strictly between the two. On a diagonal these are exactly the
      squares between origin and destination. */
  function PathSquares(sr: int, sc: int, er: int, ec: int): (path: seq<(int, int)>)
    requires InBounds(sr, sc) && InBounds(er, ec) && er != sr
    ensures |path| == PathLength(sr, sc, er, ec)
    ensures forall k :: 0 <= k < |path| ==> InBounds(path[k].0, path[k].1)
    ensures forall k :: 0 <= k < |path| ==> path[k].0 == Advance(sr, er, k + 1) && Min(sr, er) < path[k].0 < Max(sr, er)
    ensures ec != sc ==> forall k :: 0 <= k < |path| ==>
      path[k].1 == Advance(sc, ec, k + 1) && Min(sc, ec) < path[k].1 < Max(sc, ec)
    ensures ec == sc ==> forall k :: 0 <= k < |path| ==> path[k].1 == PyIndex(sc - (k + 1))
    ensures Abs(er - sr) == Abs(ec - sc) ==> |path| == Abs(er - sr) - 1
  {
    seq(PathLength(sr, sc, er, ec), k => (Advance(sr, er, k + 1), PyIndex(Advance(sc, ec, k + 1))))
  }

  /** The contents of a list of squares. */
  function CellsAt(b: Board, path: seq<(int, int)>): (cells: seq<Cell>)
    requires forall k :: 0 <= k < |path| ==> InBounds(path[k].0, path[k].1)
    ensures |cells| == |path|
    ensures forall k :: 0 <= k < |path| ==> cells[k] == Get(b, path[k].0, path[k].1)
  {
    seq(|path|, k requires 0 <= k < |path| => Get(b, path[k].0, path[k].1))
  }

  /** Every cell is empty. */
  predicate AllEmpty(cells: seq<Cell>) {
    forall j :: 0 <= j < |cells| ==> cells[j] == Empty
  }

  /** The cells hold exactly one piece, and it is the opponent's. */
  predicate ExactlyOneOpponent(cells: seq<Cell>, p: Color) {
    exists k :: 0 <= k < |cells| && HeldByOpponent(cells[k], p)
      && forall j :: 0 <= j < |cells| && j != k ==> cells[j] == Empty
  }

  /** The flying-king loop of `is_valid_move`: `enemies` opponents seen so far;
      an own piece or a second opponent ends the scan with false, and at the
      destination the answer is `enemies == 1`. */
  function ScanRay(cells: seq<Cell>, p: Color, enemies: nat): (ok: bool)
    requires enemies <= 1
    ensures ok <==> if enemies == 0 then ExactlyOneOpponent(cells, p) else AllEmpty(cells)
    decreases |cells|
  {
    if |cells| == 0 then enemies == 1
    else if cells[0] != Empty then
      if cells[0].color != p then
        if enemies + 1 > 1 then false
        else
          var rest := ScanRay(cells[1..], p, enemies + 1);
          assert rest ==> ExactlyOneOpponent(cells, p) by {
            if rest {
              assert forall j :: 0 <= j < |cells| && j != 0 ==> cells[j] == cells[1..][j - 1];
            }
          }
          rest
      else false
    else
      var rest := ScanRay(cells[1..], p, enemies);
      assert forall j :: 1 <= j < |cells| ==> cells[j] == cells[1..][j - 1];
      assert enemies == 0 && ExactlyOneOpponent(cells, p) ==> ExactlyOneOpponent(cells[1..], p) by {
        if enemies == 0 && ExactlyOneOpponent(cells, p) {
          var k :| 0 <= k < |cells| && HeldByOpponent(cells[k], p)
            && forall j :: 0 <= j < |cells| && j != k ==> cells[j] == Empty;
          assert k != 0;
          assert HeldByOpponent(cells[1..][k - 1], p);
        }
      }
      assert enemies == 0 && ExactlyOneOpponent(cells[1..], p) ==> ExactlyOneOpponent(cells, p) by {
        if enemies == 0 && ExactlyOneOpponent(cells[1..], p) {
          var k :| 0 <= k < |cells[1..]| && HeldByOpponent(cells[1..][k], p)
            && forall j :: 0 <= j < |cells[1..]| && j != k ==> cells[1..][j] == Empty;
          assert HeldByOpponent(cells[k + 1], p);
          assert forall j :: 0 <= j < |cells| && j != k + 1 ==> cells[j] == Empty by {
            forall j | 0 <= j < |cells| && j != k + 1
              ensures cells[j] == Empty
            {
              if j > 0 {
                assert cells[j] == cells[1..][j - 1];
              }
            }
          }
        }
      }
      rest
  }

  // ---------------------------------------------------------------------------
  // Move legality
  // ---------------------------------------------------------------------------

  /** The row step of a man: Black moves towards row 7, Red towards row 0. */
  function Forward(p: Color): int {
    if p == Black then 1 else -1
  }

  /** The move rules stated as a classification of the move's shape:
      a one-square diagonal step (never while capturing; men only forward),
      a two-square jump over an opponent (any piece, any direction), or a
      king's flight of three or more squares over exactly one opponent and
      nothing else. */
  ghost predicate LegalMove(b: Board, sr: int, sc: int, er: int, ec: int, p: Color, isCapture: bool) {
    && InBounds(sr, sc) && InBounds(er, ec)
    && OwnedBy(Get(b, sr, sc), p)
    && Get(b, er, ec) == Empty
    && Abs(er - sr) == Abs(ec - sc)
    && var d := Abs(er - sr);
    || (d == 1 && !isCapture && (Get(b, sr, sc).King? || er - sr == Forward(p)))
    || (d == 2 && HeldByOpponent(Get(b, (sr + er) / 2, (sc + ec) / 2), p))
    || (d >= 3 && Get(b, sr, sc).King? && ExactlyOneOpponent(CellsAt(b, PathSquares(sr, sc, er, ec)), p))
  }

  /** `is_valid_move`. It never looks at other pieces' captures: there is no
      mandatory-capture rule. */
  function IsValidMove(b: Board, sr: int, sc: int, er: int, ec: int, p: Color, isCapture: bool): (ok: bool)
    ensures ok ==> InBounds(sr, sc) && InBounds(er, ec)
    ensures ok ==> OwnedBy(Get(b, sr, sc), p) && Get(b, er, ec) == Empty
    ensures ok ==> Abs(er - sr) == Abs(ec - sc) >= 1
    ensures ok && isCapture ==> Abs(er - sr) >= 2
    ensures ok && !Get(b, sr, sc).King? ==> Abs(er - sr) <= 2
  {
    if !(InBounds(sr, sc) && InBounds(er, ec)) then false
    else
      var piece := Get(b, sr, sc);
      if !OwnedBy(piece, p) then false
      else if Get(b, er, ec) != Empty then false
      else
        var dr := er - sr;
        var dc := ec - sc;
        if Abs(dr) == 1 && Abs(dc) == 1 && !isCapture then
          piece.King? || (p == Black && dr == 1) || (p == Red && dr == -1)
        else if Abs(dr) == 2 && Abs(dc) == 2 then
          var middle := Get(b, (sr + er) / 2, (sc + ec) / 2);
          middle != Empty && middle.color != p
        else if piece.King? && Abs(dr) == Abs(dc) then
          assert dr != 0;
          var cells := CellsAt(b, PathSquares(sr, sc, er, ec));
          assert Abs(dr) == 1 ==> |cells| == 0;
          ScanRay(cells, p, 0)
        else false
  }

  /** `is_valid_move` accepts exactly the moves the shape rules allow. */
  lemma IsValidMoveMatchesRules(b: Board, sr: int, sc: int, er: int, ec: int, p: Color, isCapture: bool)
    ensures IsValidMove(b, sr, sc, er, ec, p, isCapture) <==> LegalMove(b, sr, sc, er, ec, p, isCapture)
  {
  }

  // ---------------------------------------------------------------------------
  // Move application
  // ---------------------------------------------------------------------------

  /** One entry of the move log: origin, destination and the piece that moved,
      as it was before promotion. */
  datatype LogEntry = LogEntry(sr: int, sc: int, er: int, ec: int, piece: Cell)

  /** The board after a move, the extended log and the landing square. */
  datatype MoveOutcome = MoveOutcome(board: Board, log: seq<LogEntry>, row: int, col: int)

  /** The position of the first opponent piece in `cells`, if any. */
  function FirstOpponent(cells: seq<Cell>, p: Color): (k: int)
    ensures -1 <= k < |cells|
    ensures k >= 0 ==> HeldByOpponent(cells[k], p)
    ensures forall j :: 0 <= j < |cells| && (k < 0 || j < k) ==> !HeldByOpponent(cells[j], p)
    decreases |cells|
  {
    if |cells| == 0 then -1
    else if HeldByOpponent(cells[0], p) then 0
    else
      var k := FirstOpponent(cells[1..], p);
      assert forall j :: 1 <= j < |cells| ==> cells[j] == cells[1..][j - 1];
      if k < 0 then -1 else k + 1
  }

  /** The square `make_move` clears: for a move of more than one row, the first
      opponent-occupied square on the walk towards the destination. */
  datatype Capture = NoCapture | CaptureAt(row: int, col: int)

  function CapturedSquare(b: Board, sr: int, sc: int, er: int, ec: int, p: Color): (cap: Capture)
    requires InBounds(sr, sc) && InBounds(er, ec)
    ensures cap.CaptureAt? ==> Abs(er - sr) > 1 && InBounds(cap.row, cap.col)
    ensures cap.CaptureAt? ==> HeldByOpponent(Get(b, cap.row, cap.col), p)
    ensures cap.CaptureAt? ==> cap.row != sr && cap.row != er
    ensures Abs(er - sr) > 1 ==> var path := PathSquares(sr, sc, er, ec);
      (cap.CaptureAt? <==> exists k :: 0 <= k < |path| && HeldByOpponent(Get(b, path[k].0, path[k].1), p))
    ensures cap.CaptureAt? ==> Abs(er - sr) > 1 && var path := PathSquares(sr, sc, er, ec);
      exists k :: 0 <= k < |path| && path[k] == (cap.row, cap.col)
        && forall j :: 0 <= j < k ==> !HeldByOpponent(Get(b, path[j].0, path[j].1), p)
  {
    if Abs(er - sr) > 1 then
      var path := PathSquares(sr, sc, er, ec);
      var k := FirstOpponent(CellsAt(b, path), p);
      if k < 0 then NoCapture else CaptureAt(path[k].0, path[k].1)
    else NoCapture
  }

  /** `make_move`: log the move, clear the captured square, move the piece,
      empty the origin, promote on the far rank and return the landing square.
      It does not check the move; callers validate first. */
  function MakeMove(b: Board, sr: int, sc: int, er: int, ec: int, p: Color, log: seq<LogEntry>): (out: MoveOutcome)
    requires InBounds(sr, sc) && InBounds(er, ec)
    ensures out.log == log + [LogEntry(sr, sc, er, ec, Get(b, sr, sc))]
    ensures out.row == er && out.col == ec
    ensures (sr, sc) != (er, ec) ==> Get(out.board, sr, sc) == Empty
    ensures (sr, sc) != (er, ec) ==>
      Get(out.board, er, ec) == (if PromotionRow(er, p) then King(p) else Get(b, sr, sc))
    ensures (sr, sc) == (er, ec) ==>
      Get(out.board, er, ec) == (if PromotionRow(er, p) then King(p) else Empty)
    ensures forall r, c :: InBounds(r, c) && (r, c) != (sr, sc) && (r, c) != (er, ec) ==>
      Get(out.board, r, c) == (if CapturedSquare(b, sr, sc, er, ec, p) == CaptureAt(r, c) then Empty else Get(b, r, c))
  {
    var piece := Get(b, sr, sc);
    var cap := CapturedSquare(b, sr, sc, er, ec, p);
    var cleared := if cap.CaptureAt? then Set(b, cap.row, cap.col, Empty) else b;
    var moved := Set(Set(cleared, er, ec, piece), sr, sc, Empty);
    MoveOutcome(PromoteToKing(moved, er, ec, p), log + [LogEntry(sr, sc, er, ec, piece)], er, ec)
  }

  /** A valid move of two or more rows always finds the piece it jumps. */
  lemma ValidJumpHasCapture(b: Board, sr: int, sc: int, er: int, ec: int, p: Color, isCapture: bool)
    requires IsValidMove(b, sr, sc, er, ec, p, isCapture) && Abs(er - sr) >= 2
    ensures CapturedSquare(b, sr, sc, er, ec, p).CaptureAt?
  {
    IsValidMoveMatchesRules(b, sr, sc, er, ec, p, isCapture);
    var path := PathSquares(sr, sc, er, ec);
    if Abs(er - sr) == 2 {
      JumpPath(sr, sc, er, ec);
      assert HeldByOpponent(Get(b, path[0].0, path[0].1), p);
    } else {
      var cells := CellsAt(b, path);
      var k := TheOpponent(cells, p);
      assert HeldByOpponent(Get(b, path[k].0, path[k].1), p);
    }
  }

  /** The walk of a two-row diagonal jump visits just its midpoint. */
  lemma JumpPath(sr: int, sc: int, er: int, ec: int)
    requires InBounds(sr, sc) && InBounds(er, ec) && Abs(er - sr) == 2 && Abs(ec - sc) == 2
    ensures PathSquares(sr, sc, er, ec) == [((sr + er) / 2, (sc + ec) / 2)]
  {
  }

  /** The position of the one opponent piece among cells that hold exactly one. */
  lemma TheOpponent(cells: seq<Cell>, p: Color) returns (k: nat)
    requires ExactlyOneOpponent(cells, p)
    ensures k < |cells| && HeldByOpponent(cells[k], p)
  {
    var j :| 0 <= j < |cells| && HeldByOpponent(cells[j], p)
      && forall i :: 0 <= i < |cells| && i != j ==> cells[i] == Empty;
    k := j;
  }

  /** A valid jump or flight removes exactly one opponent piece and keeps the
      mover's piece count. */
  lemma ValidCaptureRemovesOne(b: Board, sr: int, sc: int, er: int, ec: int, p: Color, isCapture: bool, log: seq<LogEntry>)
    requires IsValidMove(b, sr, sc, er, ec, p, isCapture) && Abs(er - sr) >= 2
    ensures PieceCount(MakeMove(b, sr, sc, er, ec, p, log).board, Opponent(p)) == PieceCount(b, Opponent(p)) - 1
    ensures PieceCount(MakeMove(b, sr, sc, er, ec, p, log).board, p) == PieceCount(b, p)
  {
    ValidJumpHasCapture(b, sr, sc, er, ec, p, isCapture);
    var cap := CapturedSquare(b, sr, sc, er, ec, p);
    MoveCounts(b, sr, sc, er, ec, p, log);
  }

  /** A valid one-square step keeps both sides' piece counts. */
  lemma ValidStepKeepsCounts(b: Board, sr: int, sc: int, er: int, ec: int, p: Color, log: seq<LogEntry>)
    requires IsValidMove(b, sr, sc, er, ec, p, false) && Abs(er - sr) == 1
    ensures PieceCount(MakeMove(b, sr, sc, er, ec, p, log).board, Opponent(p)) == PieceCount(b, Opponent(p))
    ensures PieceCount(MakeMove(b, sr, sc, er, ec, p, log).board, p) == PieceCount(b, p)
  {
    MoveCounts(b, sr, sc, er, ec, p, log);
  }

  /** Piece counts after moving an own piece onto an empty square: the
      opponent loses the captured piece, if any, and the mover loses nothing. */
  lemma MoveCounts(b: Board, sr: int, sc: int, er: int, ec: int, p: Color, log: seq<LogEntry>)
    requires InBounds(sr, sc) && InBounds(er, ec)
    requires OwnedBy(Get(b, sr, sc), p) && Get(b, er, ec) == Empty
    ensures var after := MakeMove(b, sr, sc, er, ec, p, log).board;
      && PieceCount(after, p) == PieceCount(b, p)
      && PieceCount(after, Opponent(p))
         == PieceCount(b, Opponent(p)) - (if CapturedSquare(b, sr, sc, er, ec, p).CaptureAt? then 1 else 0)
  {
    var cap := CapturedSquare(b, sr, sc, er, ec, p);
    var cleared := if cap.CaptureAt? then Set(b, cap.row, cap.col, Empty) else b;
    if cap.CaptureAt? {
      PieceCountAfterSet(b, cap.row, cap.col, Empty, p);
      PieceCountAfterSet(b, cap.row, cap.col, Empty, Opponent(p));
    }
    assert Get(cleared, er, ec) == Empty && Get(cleared, sr, sc) == Get(b, sr, sc);
    PlaceCounts(cleared, sr, sc, er, ec, p);
  }

  /** Moving an own piece onto an empty square and promoting it keeps both
      sides' piece counts. */
  lemma PlaceCounts(c: Board, sr: int, sc: int, er: int, ec: int, p: Color)
    requires InBounds(sr, sc) && InBounds(er, ec)
    requires OwnedBy(Get(c, sr, sc), p) && Get(c, er, ec) == Empty
    ensures var after := PromoteToKing(Set(Set(c, er, ec, Get(c, sr, sc)), sr, sc, Empty), er, ec, p);
      PieceCount(after, p) == PieceCount(c, p) && PieceCount(after, Opponent(p)) == PieceCount(c, Opponent(p))
  {
    var q := Opponent(p);
    var piece := Get(c, sr, sc);
    var placed := Set(c, er, ec, piece);
    PieceCountAfterSet(c, er, ec, piece, p);
    PieceCountAfterSet(c, er, ec, piece, q);
    var moved := Set(placed, sr, sc, Empty);
    PieceCountAfterSet(placed, sr, sc, Empty, p);
    PieceCountAfterSet(placed, sr, sc, Empty, q);
    assert Get(moved, er, ec) == piece;
    if PromotionRow(er, p) {
      PieceCountAfterSet(moved, er, ec, King(p), p);
      PieceCountAfterSet(moved, er, ec, King(p), q);
    }
  }

  // ---------------------------------------------------------------------------
  // Capture enumeration
  // ---------------------------------------------------------------------------

  /** The destinations `get_available_captures` tries for a king, in its order:
      distance d from `from` up to 7, and for each d the four diagonals. */
  function KingTargets(r: int, c: int, from: nat): (ts: seq<(int, int)>)
    requires 1 <= from
    ensures forall t :: t in ts <==> from <= Abs(t.0 - r) <= 7 && Abs(t.0 - r) == Abs(t.1 - c)
    decreases 8 - from
  {
    if from > 7 then [] else Ring(r, c, from) + KingTargets(r, c, from + 1)
  }

  /** The four diagonal squares at distance d from (r, c), in the order
      `get_available_captures` tries them. */
  function Ring(r: int, c: int, d: int): seq<(int, int)> {
    [(r - d, c - d), (r - d, c + d), (r + d, c - d), (r + d, c + d)]
  }

  /** The four squares of a ring of positive distance differ. */
  lemma RingDistinct(r: int, c: int, d: int)
    requires d >= 1
    ensures Distinct(Ring(r, c, d))
    ensures forall t :: t in Ring(r, c, d) ==> Abs(t.0 - r) == d
  {
    var ring := Ring(r, c, d);
    forall i, j | 0 <= i < j < 4
      ensures ring[i] != ring[j]
    {
    }
  }

  /** The destinations tried for a man: the four two-square jumps. */
  function ManTargets(r: int, c: int): seq<(int, int)> {
    [(r - 2, c - 2), (r - 2, c + 2), (r + 2, c - 2), (r + 2, c + 2)]
  }

  /** Keeps, in order, the in-bounds targets that are valid captures. */
  function FilterCaptures(b: Board, r: int, c: int, p: Color, ts: seq<(int, int)>): (caps: seq<(int, int)>)
    ensures forall t :: t in caps <==> t in ts && InBounds(t.0, t.1) && IsValidMove(b, r, c, t.0, t.1, p, true)
    ensures Distinct(ts) ==> Distinct(caps)
    decreases |ts|
  {
    if |ts| == 0 then []
    else
      var rest := FilterCaptures(b, r, c, p, ts[1..]);
      assert forall t :: t in ts <==> t == ts[0] || t in ts[1..];
      if InBounds(ts[0].0, ts[0].1) && IsValidMove(b, r, c, ts[0].0, ts[0].1, p, true) then
        assert Distinct(ts) ==> ts[0] !in ts[1..] by {
          if Distinct(ts) {
            forall j | 0 <= j < |ts[1..]|
              ensures ts[1..][j] != ts[0]
            {
              assert ts[1..][j] == ts[j + 1];
            }
          }
        }
        [ts[0]] + rest
      else rest
  }

  /** No value occurs twice. */
  predicate Distinct<T(==)>(s: seq<T>) {
    forall i, j :: 0 <= i < j < |s| ==> s[i] != s[j]
  }

  /** Joining two duplicate-free lists with no common element repeats nothing. */
  lemma DistinctConcat<T>(a: seq<T>, b: seq<T>)
    requires Distinct(a) && Distinct(b)
    requires forall x :: x in a ==> x !in b
    ensures Distinct(a + b)
  {
    var s := a + b;
    forall i, j | 0 <= i < j < |s|
      ensures s[i] != s[j]
    {
      if i < |a| && j >= |a| {
        assert s[i] in a;
        assert s[j] == b[j - |a|];
      } else if i >= |a| {
        assert s[i] == b[i - |a|] && s[j] == b[j - |a|];
      }
    }
  }

  /** The king's candidate list never repeats a square. */
  lemma {:induction false} KingTargetsDistinct(r: int, c: int, from: nat)
    requires 1 <= from
    ensures Distinct(KingTargets(r, c, from))
    decreases 8 - from
  {
    if from <= 7 {
      KingTargetsDistinct(r, c, from + 1);
      var head := Ring(r, c, from);
      var tail := KingTargets(r, c, from + 1);
      RingDistinct(r, c, from);
      assert forall t :: t in head ==> t !in tail;
      DistinctConcat(head, tail);
    }
  }

  /** The candidate list `get_available_captures` tries: all king flights or
      the four man jumps, depending on the piece on (r, c). */
  function CaptureTargets(b: Board, r: int, c: int): seq<(int, int)>
    requires InBounds(r, c)
  {
    if Get(b, r, c).King? then KingTargets(r, c, 1) else ManTargets(r, c)
  }

  /** The candidate list is duplicate-free and contains every valid capture. */
  lemma CaptureTargetsCover(b: Board, r: int, c: int, p: Color)
    requires InBounds(r, c)
    ensures Distinct(CaptureTargets(b, r, c))
    ensures forall er, ec :: InBounds(er, ec) && IsValidMove(b, r, c, er, ec, p, true) ==> (er, ec) in CaptureTargets(b, r, c)
  {
    var ts := CaptureTargets(b, r, c);
    if Get(b, r, c).King? {
      KingTargetsDistinct(r, c, 1);
    }
    forall er, ec | InBounds(er, ec) && IsValidMove(b, r, c, er, ec, p, true)
      ensures (er, ec) in ts
    {
      CandidateContainsShape(r, c, er, ec, Get(b, r, c).King?);
    }
  }

  /** Every diagonal destination at distance 2, and for a king at any
      distance, is on the candidate list. */
  lemma CandidateContainsShape(r: int, c: int, er: int, ec: int, king: bool)
    requires Abs(er - r) == Abs(ec - c) && 1 <= Abs(er - r) <= 7
    requires !king ==> Abs(er - r) == 2
    ensures (er, ec) in (if king then KingTargets(r, c, 1) else ManTargets(r, c))
  {
    if !king {
      var ts := ManTargets(r, c);
      if er < r {
        if ec < c { assert (er, ec) == ts[0]; } else { assert (er, ec) == ts[1]; }
      } else {
        if ec < c { assert (er, ec) == ts[2]; } else { assert (er, ec) == ts[3]; }
      }
    }
  }

  /** `get_available_captures`: every in-bounds destination that is a valid
      capture from (r, c), each once. */
  function GetAvailableCaptures(b: Board, r: int, c: int, p: Color): (caps: seq<(int, int)>)
    requires InBounds(r, c)
    ensures forall er, ec :: (er, ec) in caps <==> InBounds(er, ec) && IsValidMove(b, r, c, er, ec, p, true)
    ensures Distinct(caps)
  {
    var ts := CaptureTargets(b, r, c);
    CaptureTargetsCover(b, r, c, p);
    FilterCaptures(b, r, c, p, ts)
  }

  // ---------------------------------------------------------------------------
  // No-moves detection
  // ---------------------------------------------------------------------------

  /** One of the four one-square diagonal steps from (r, c) is valid. */
  predicate StepAvailable(b: Board, r: int, c: int, p: Color) {
    || (InBounds(r - 1, c - 1) && IsValidMove(b, r, c, r - 1, c - 1, p, false))
    || (InBounds(r - 1, c + 1) && IsValidMove(b, r, c, r - 1, c + 1, p, false))
    || (InBounds(r + 1, c - 1) && IsValidMove(b, r, c, r + 1, c - 1, p, false))
    || (InBounds(r + 1, c + 1) && IsValidMove(b, r, c, r + 1, c + 1, p, false))
  }

  /** The player's piece on (r, c) can step or capture. */
  predicate PieceCanMove(b: Board, r: int, c: int, p: Color)
    requires InBounds(r, c)
  {
    OwnedBy(Get(b, r, c), p) && (StepAvailable(b, r, c, p) || |GetAvailableCaptures(b, r, c, p)| > 0)
  }

  /** The inner loop of `has_any_moves`: columns c..7 of row r. */
  function ScanColumns(b: Board, p: Color, r: int, c: int): (found: bool)
    requires 0 <= r < 8 && 0 <= c <= 8
    ensures found <==> exists c' :: c <= c' < 8 && PieceCanMove(b, r, c', p)
    decreases 8 - c
  {
    if c == 8 then false
    else PieceCanMove(b, r, c, p) || ScanColumns(b, p, r, c + 1)
  }

  /** The outer loop of `has_any_moves`: rows r..7. */
  function ScanRows(b: Board, p: Color, r: int): (found: bool)
    requires 0 <= r <= 8
    ensures found <==> exists r', c' :: r <= r' < 8 && 0 <= c' < 8 && PieceCanMove(b, r', c', p)
    decreases 8 - r
  {
    if r == 8 then false
    else ScanColumns(b, p, r, 0) || ScanRows(b, p, r + 1)
  }

  /** `has_any_moves`: some piece of the player has a valid step or a capture. */
  function HasAnyMoves(b: Board, p: Color): (found: bool)
    ensures found <==> exists r, c :: InBounds(r, c) && PieceCanMove(b, r, c, p)
  {
    ScanRows(b, p, 0)
  }

  /** Some move of the player is valid, as the interactive loop would ask it. */
  ghost predicate SomeValidMove(b: Board, p: Color) {
    exists sr, sc, er, ec :: IsValidMove(b, sr, sc, er, ec, p, false)
  }

  /** A capture is valid in capture mode exactly when it is valid in normal
      mode; only one-square steps depend on the mode. */
  lemma CaptureModeOnlyBlocksSteps(b: Board, sr: int, sc: int, er: int, ec: int, p: Color)
    ensures IsValidMove(b, sr, sc, er, ec, p, true) <==>
      IsValidMove(b, sr, sc, er, ec, p, false) && Abs(er - sr) >= 2
  {
  }

  /** A piece that can step or capture gives the player a valid move. */
  lemma PieceMoveIsValidMove(b: Board, r: int, c: int, p: Color)
    requires InBounds(r, c) && PieceCanMove(b, r, c, p)
    ensures SomeValidMove(b, p)
  {
    if IsValidMove(b, r, c, r - 1, c - 1, p, false) {
    } else if IsValidMove(b, r, c, r - 1, c + 1, p, false) {
    } else if IsValidMove(b, r, c, r + 1, c - 1, p, false) {
    } else if IsValidMove(b, r, c, r + 1, c + 1, p, false) {
    } else {
      var caps := GetAvailableCaptures(b, r, c, p);
      var t := caps[0];
      assert t in caps;
      CaptureModeOnlyBlocksSteps(b, r, c, t.0, t.1, p);
      assert IsValidMove(b, r, c, t.0, t.1, p, false);
    }
  }

  /** The origin of a valid move is a piece that can step or capture. */
  lemma ValidMoveIsPieceMove(b: Board, sr: int, sc: int, er: int, ec: int, p: Color)
    requires IsValidMove(b, sr, sc, er, ec, p, false)
    ensures InBounds(sr, sc) && PieceCanMove(b, sr, sc, p)
  {
    if Abs(er - sr) == 1 {
      assert StepAvailable(b, sr, sc, p);
    } else {
      CaptureModeOnlyBlocksSteps(b, sr, sc, er, ec, p);
      assert (er, ec) in GetAvailableCaptures(b, sr, sc, p);
    }
  }

  /** The player has a move exactly when `has_any_moves` says so. */
  lemma HasAnyMovesIffSomeValidMove(b: Board, p: Color)
    ensures HasAnyMoves(b, p) <==> SomeValidMove(b, p)
  {
    if HasAnyMoves(b, p) {
      var r, c :| InBounds(r, c) && PieceCanMove(b, r, c, p);
      PieceMoveIsValidMove(b, r, c, p);
    }
    if SomeValidMove(b, p) {
      var sr, sc, er, ec :| IsValidMove(b, sr, sc, er, ec, p, false);
      ValidMoveIsPieceMove(b, sr, sc, er, ec, p);
    }
  }
}
