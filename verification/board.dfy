/** The board shared by both checkers engines: an 8x8 grid of cell tags.

    The Python code stores a board as a list of eight lists of string tags
    (' ', 'B', 'BK', 'R', 'RK'). Here the tags become the `Cell` datatype and
    the grid is kept flat, row by row, which is also the order in which
    `count_pieces` walks it. */
module Board {

  datatype Color = Black | Red

  /** The other side. */
  function Opponent(p: Color): (q: Color)
    ensures q != p
  {
    if p == Black then Red else Black
  }

  /** ' ' is `Empty`, 'B'/'R' are men, 'BK'/'RK' are kings. */
  datatype Cell = Empty | Man(color: Color) | King(color: Color)

  /** Python's `piece in [player, player + 'K']`. */
  predicate OwnedBy(x: Cell, p: Color) {
    !x.Empty? && x.color == p
  }

  /** Python's `x != ' ' and x[0] != player`: an occupied cell of the other side. */
  predicate HeldByOpponent(x: Cell, p: Color) {
    !x.Empty? && x.color != p
  }

  function Abs(x: int): nat {
    if x < 0 then -x else x
  }

  function Min(x: int, y: int): int {
    if x <= y then x else y
  }

  function Max(x: int, y: int): int {
    if x <= y then y else x
  }

  /** A board is 64 cells, row-major. */
  type Board = b: seq<Cell> | |b| == 64 witness seq(64, i => Empty)

  predicate InBounds(r: int, c: int) {
    0 <= r < 8 && 0 <= c < 8
  }

  /** Dark squares are the ones with an odd coordinate sum; only they are played on. */
  predicate IsDark(r: int, c: int) {
    (r + c) % 2 == 1
  }

  function Index(r: int, c: int): (i: nat)
    requires InBounds(r, c)
    ensures i < 64
  {
    8 * r + c
  }

  /** Distinct squares occupy distinct positions of the flat board. */
  lemma IndexInjective(r: int, c: int, r': int, c': int)
    requires InBounds(r, c) && InBounds(r', c')
    ensures Index(r, c) == Index(r', c') <==> (r, c) == (r', c')
  {
  }

  /** The square at a flat position. */
  lemma IndexOf(i: nat)
    requires i < 64
    ensures InBounds(i / 8, i % 8) && Index(i / 8, i % 8) == i
  {
  }

  /** Python's `board[r][c]`. */
  function Get(b: Board, r: int, c: int): Cell
    requires InBounds(r, c)
  {
    b[Index(r, c)]
  }

  /** Python's `board[r][c] = x`: that square changes, no other does. */
  function Set(b: Board, r: int, c: int, x: Cell): (b': Board)
    requires InBounds(r, c)
    ensures Get(b', r, c) == x
    ensures forall r', c' :: InBounds(r', c') && (r', c') != (r, c) ==> Get(b', r', c') == Get(b, r', c')
  {
    var b' := b[Index(r, c) := x];
    forall r', c' | InBounds(r', c') && (r', c') != (r, c)
      ensures Get(b', r', c') == Get(b, r', c')
    {
      IndexInjective(r, c, r', c');
    }
    b'
  }

  /** How many cells of `s` hold `x`; Python's `sum(p == x for p in flat)`. */
  function CountCell(s: seq<Cell>, x: Cell): (n: nat)
    ensures n == multiset(s)[x]
    decreases |s|
  {
    if |s| == 0 then 0
    else
      var init := s[..|s| - 1];
      assert s == init + [s[|s| - 1]];
      CountCell(init, x) + (if s[|s| - 1] == x then 1 else 0)
  }

  /** Pieces of one side, men and kings together. */
  function PieceCount(b: Board, p: Color): nat {
    CountCell(b, Man(p)) + CountCell(b, King(p))
  }

  /** Writing one cell moves one unit of count from the old contents to the new. */
  lemma CountAfterSet(b: Board, r: int, c: int, x: Cell, y: Cell)
    requires InBounds(r, c)
    ensures CountCell(Set(b, r, c, x), y)
         == CountCell(b, y) - (if Get(b, r, c) == y then 1 else 0) + (if x == y then 1 else 0)
  {
    var i := Index(r, c);
    assert Set(b, r, c, x) == b[i := x];
    assert b == b[..i] + [b[i]] + b[i + 1..];
    assert b[i := x] == b[..i] + [x] + b[i + 1..];
  }

  /** Writing one cell changes a side's piece count only by what left and what arrived. */
  lemma PieceCountAfterSet(b: Board, r: int, c: int, x: Cell, q: Color)
    requires InBounds(r, c)
    ensures PieceCount(Set(b, r, c, x), q)
         == PieceCount(b, q) - (if OwnedBy(Get(b, r, c), q) then 1 else 0) + (if OwnedBy(x, q) then 1 else 0)
  {
    CountAfterSet(b, r, c, x, Man(q));
    CountAfterSet(b, r, c, x, King(q));
  }
}
