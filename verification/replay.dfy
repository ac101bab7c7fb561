/** The board reconstruction inside `replay_game` of engine.py, without its
    printing and prompting: starting from the initial layout, each log entry
    puts the logged piece on its destination and empties its origin. It never
    removes captured pieces and it replays the piece as logged, before
    promotion, so it reproduces live play only for plain steps. */
module Replay {
  import opened Board
  import Engine

  predicate EntryInBounds(e: Engine.LogEntry) {
    InBounds(e.sr, e.sc) && InBounds(e.er, e.ec)
  }

  /** One replayed entry. */
  function ReplayStep(b: Board, e: Engine.LogEntry): (b': Board)
    requires EntryInBounds(e)
    ensures Get(b', e.sr, e.sc) == Empty
    ensures (e.sr, e.sc) != (e.er, e.ec) ==> Get(b', e.er, e.ec) == e.piece
    ensures forall r, c :: InBounds(r, c) && (r, c) != (e.sr, e.sc) && (r, c) != (e.er, e.ec) ==> Get(b', r, c) == Get(b, r, c)
  {
    Set(Set(b, e.er, e.ec, e.piece), e.sr, e.sc, Empty)
  }

  /** The board after replaying every entry of `log` from `b`, in order. */
  function ReplayFrom(b: Board, log: seq<Engine.LogEntry>): Board
    requires forall i :: 0 <= i < |log| ==> EntryInBounds(log[i])
    decreases |log|
  {
    if |log| == 0 then b else ReplayFrom(ReplayStep(b, log[0]), log[1..])
  }

  /** The boards shown while replaying `log` from `b`: each entry is applied
      to the board shown before it. */
  function Snapshots(b: Board, log: seq<Engine.LogEntry>): (boards: seq<Board>)
    requires forall i :: 0 <= i < |log| ==> EntryInBounds(log[i])
    ensures |boards| == |log|
    ensures |log| > 0 ==> boards[0] == ReplayStep(b, log[0])
    ensures forall i :: 0 < i < |log| ==> boards[i] == ReplayStep(boards[i - 1], log[i])
    decreases |log|
  {
    if |log| == 0 then []
    else
      var first := ReplayStep(b, log[0]);
      [first] + Snapshots(first, log[1..])
  }

  /** The boards `replay_game` shows, one per entry: the first entry is
      applied to the initial layout, each later one to the board shown
      before it. */
  function ReplayGame(log: seq<Engine.LogEntry>): (boards: seq<Board>)
    requires forall i :: 0 <= i < |log| ==> EntryInBounds(log[i])
    ensures |boards| == |log|
    ensures |log| > 0 ==> boards[0] == ReplayStep(Engine.CreateBoard(), log[0])
    ensures forall i :: 0 < i < |log| ==> boards[i] == ReplayStep(boards[i - 1], log[i])
  {
    Snapshots(Engine.CreateBoard(), log)
  }

  /** Replaying a log extended by one entry is one more step after the rest. */
  lemma {:induction false} ReplaySnoc(b: Board, log: seq<Engine.LogEntry>, e: Engine.LogEntry)
    requires forall i :: 0 <= i < |log| ==> EntryInBounds(log[i])
    requires EntryInBounds(e)
    ensures ReplayFrom(b, log + [e]) == ReplayStep(ReplayFrom(b, log), e)
    decreases |log|
  {
    if |log| > 0 {
      assert (log + [e])[1..] == log[1..] + [e];
      ReplaySnoc(ReplayStep(b, log[0]), log[1..], e);
    }
  }

  /** The i-th shown board is the initial layout with the first i + 1
      entries replayed. */
  lemma {:induction false} ReplayGamePrefix(log: seq<Engine.LogEntry>, i: int)
    requires forall k :: 0 <= k < |log| ==> EntryInBounds(log[k])
    requires 0 <= i < |log|
    ensures ReplayGame(log)[i] == ReplayFrom(Engine.CreateBoard(), log[..i + 1])
  {
    var boards := ReplayGame(log);
    if i == 0 {
      assert log[..1] == [log[0]];
      assert ReplayFrom(Engine.CreateBoard(), log[..1]) == ReplayFrom(ReplayStep(Engine.CreateBoard(), log[0]), []);
    } else {
      ReplayGamePrefix(log, i - 1);
      assert log[..i + 1] == log[..i] + [log[i]];
      ReplaySnoc(Engine.CreateBoard(), log[..i], log[i]);
    }
  }

  /** For a valid one-square step that does not reach the far rank, replaying
      the logged entry gives the board live play produced. */
  lemma ReplayMatchesQuietStep(b: Board, sr: int, sc: int, er: int, ec: int, p: Color, log: seq<Engine.LogEntry>)
    requires Engine.IsValidMove(b, sr, sc, er, ec, p, false) && Abs(er - sr) == 1
    requires !Engine.PromotionRow(er, p)
    ensures var out := Engine.MakeMove(b, sr, sc, er, ec, p, log);
      ReplayStep(b, out.log[|log|]) == out.board
  {
    var out := Engine.MakeMove(b, sr, sc, er, ec, p, log);
    var replayed := ReplayStep(b, out.log[|log|]);
    assert Engine.CapturedSquare(b, sr, sc, er, ec, p) == Engine.NoCapture;
    forall i | 0 <= i < 64
      ensures replayed[i] == out.board[i]
    {
      IndexOf(i);
    }
  }

  /** For a valid capture, the replayed board still holds the captured piece
      that live play removed. */
  lemma ReplayMissesCapture(b: Board, sr: int, sc: int, er: int, ec: int, p: Color, isCapture: bool, log: seq<Engine.LogEntry>)
    requires Engine.IsValidMove(b, sr, sc, er, ec, p, isCapture) && Abs(er - sr) >= 2
    ensures var out := Engine.MakeMove(b, sr, sc, er, ec, p, log);
      ReplayStep(b, out.log[|log|]) != out.board
  {
    Engine.ValidJumpHasCapture(b, sr, sc, er, ec, p, isCapture);
    var cap := Engine.CapturedSquare(b, sr, sc, er, ec, p);
    var out := Engine.MakeMove(b, sr, sc, er, ec, p, log);
    var replayed := ReplayStep(b, out.log[|log|]);
    assert Get(out.board, cap.row, cap.col) == Empty;
    assert Get(replayed, cap.row, cap.col) != Empty;
  }

  /** When a man reaches the far rank, live play crowns it and the replay
      does not. */
  lemma ReplayMissesPromotion(b: Board, sr: int, sc: int, er: int, ec: int, p: Color, isCapture: bool, log: seq<Engine.LogEntry>)
    requires Engine.IsValidMove(b, sr, sc, er, ec, p, isCapture)
    requires Get(b, sr, sc).Man? && Engine.PromotionRow(er, p)
    ensures var out := Engine.MakeMove(b, sr, sc, er, ec, p, log);
      ReplayStep(b, out.log[|log|]) != out.board
  {
    var out := Engine.MakeMove(b, sr, sc, er, ec, p, log);
    var replayed := ReplayStep(b, out.log[|log|]);
    assert Get(out.board, er, ec) == King(p);
    assert Get(replayed, er, ec) == Man(p);
  }
}
