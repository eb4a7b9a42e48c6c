/**
 Five in a row: the win check and the move handling of `game/source/room.hpp`.
 A win is looked for only through the stone just placed; on runs up to the first
 reported win that is as good as looking at the whole board.
 */
module Room {

  const SIZE: int := 15
  const WHITE: int := 1
  const BLACK: int := 2

  type Board = seq<seq<int>>

  ghost predicate Square(b: Board) {
    |b| == SIZE && forall r :: 0 <= r < |b| ==> |b[r]| == SIZE
  }

  ghost predicate WellFormed(b: Board) {
    && Square(b)
    && (forall r, c :: 0 <= r < |b| && 0 <= c < |b[r]| ==> b[r][c] == 0 || b[r][c] == WHITE || b[r][c] == BLACK)
  }

  // ---------- Lines of marks ----------

  /** The places that carry a stone of one colour. */
  type Marks = (int, int) -> bool

  ghost predicate OnBoard(f: Marks) {
    forall x, y :: f(x, y) ==> 0 <= x < SIZE && 0 <= y < SIZE
  }

  predicate Direction(dr: int, dc: int) {
    -1 <= dr <= 1 && -1 <= dc <= 1 && !(dr == 0 && dc == 0)
  }

  /** Five marks in a row from `(r, c)` on. */
  ghost predicate Five(f: Marks, r: int, c: int, dr: int, dc: int) {
    f(r, c) && f(r + dr, c + dc) && f(r + 2 * dr, c + 2 * dc) && f(r + 3 * dr, c + 3 * dc) && f(r + 4 * dr, c + 4 * dc)
  }

  /** Somewhere on the board five are aligned. */
  ghost predicate Aligned(f: Marks) {
    exists r, c, dr, dc :: Direction(dr, dc) && Five(f, r, c, dr, dc)
  }

  /** One of the five rows through `(r, c)` in this direction is complete. */
  ghost predicate FiveThrough(f: Marks, r: int, c: int, dr: int, dc: int) {
    || Five(f, r, c, dr, dc) || Five(f, r - dr, c - dc, dr, dc) || Five(f, r - 2 * dr, c - 2 * dc, dr, dc)
    || Five(f, r - 3 * dr, c - 3 * dc, dr, dc) || Five(f, r - 4 * dr, c - 4 * dc, dr, dc)
  }

  /** A row read backwards is a row. */
  lemma ThroughReversed(f: Marks, r: int, c: int, dr: int, dc: int)
    requires f(r, c) && FiveThrough(f, r, c, -dr, -dc)
    ensures FiveThrough(f, r, c, dr, dc)
  {
    RowsThrough(f, r, c, dr, dc);
    RowsThrough(f, r, c, -dr, -dc);
  }

  /** Steps left before the board ends. */
  ghost function Ahead(r: int, c: int, dr: int, dc: int): int {
    if dr > 0 then SIZE - r else if dr < 0 then r + 1 else if dc > 0 then SIZE - c else c + 1
  }

  /** The number of marks from `(r, c)` on without a gap. */
  ghost function Run(f: Marks, r: int, c: int, dr: int, dc: int): nat
    requires OnBoard(f) && Direction(dr, dc)
    decreases Ahead(r, c, dr, dc)
  {
    if f(r, c) then 1 + Run(f, r + dr, c + dc, dr, dc) else 0
  }

  /** The first four places of a run. */
  lemma RunLengths(f: Marks, r: int, c: int, dr: int, dc: int)
    requires OnBoard(f) && Direction(dr, dc)
    ensures var n := Run(f, r + dr, c + dc, dr, dc);
      var s1, s2, s3, s4 := f(r + dr, c + dc), f(r + 2 * dr, c + 2 * dc), f(r + 3 * dr, c + 3 * dc), f(r + 4 * dr, c + 4 * dc);
      && (n >= 1 <==> s1) && (n >= 2 <==> s1 && s2) && (n >= 3 <==> s1 && s2 && s3) && (n >= 4 <==> s1 && s2 && s3 && s4)
  {
    assert Run(f, r + dr, c + dc, dr, dc) == if f(r + dr, c + dc) then 1 + Run(f, r + 2 * dr, c + 2 * dc, dr, dc) else 0;
    assert Run(f, r + 2 * dr, c + 2 * dc, dr, dc) ==
      if f(r + 2 * dr, c + 2 * dc) then 1 + Run(f, r + 3 * dr, c + 3 * dc, dr, dc) else 0;
    assert Run(f, r + 3 * dr, c + 3 * dc, dr, dc) ==
      if f(r + 3 * dr, c + 3 * dc) then 1 + Run(f, r + 4 * dr, c + 4 * dc, dr, dc) else 0;
  }

  /** Four more marks in one piece around a mark: `a` before it, `b` behind it. */
  ghost predicate FourAround(a1: bool, a2: bool, a3: bool, a4: bool, b1: bool, b2: bool, b3: bool, b4: bool) {
    || (a1 && a2 && a3 && a4) || (b1 && a1 && a2 && a3) || (b2 && b1 && a1 && a2)
    || (b3 && b2 && b1 && a1) || (b4 && b3 && b2 && b1)
  }

  lemma FourAroundIs(m: nat, n: nat, a1: bool, a2: bool, a3: bool, a4: bool, b1: bool, b2: bool, b3: bool, b4: bool)
    requires (m >= 1 <==> a1) && (m >= 2 <==> a1 && a2) && (m >= 3 <==> a1 && a2 && a3)
    requires (m >= 4 <==> a1 && a2 && a3 && a4)
    requires (n >= 1 <==> b1) && (n >= 2 <==> b1 && b2) && (n >= 3 <==> b1 && b2 && b3)
    requires (n >= 4 <==> b1 && b2 && b3 && b4)
    ensures FourAround(a1, a2, a3, a4, b1, b2, b3, b4) <==> m + n >= 4
  {}

  /** The five rows through a mark, place by place. */
  lemma RowsThrough(f: Marks, r: int, c: int, dr: int, dc: int)
    requires f(r, c)
    ensures FiveThrough(f, r, c, dr, dc) == FourAround(
      f(r + dr, c + dc), f(r + 2 * dr, c + 2 * dc), f(r + 3 * dr, c + 3 * dc), f(r + 4 * dr, c + 4 * dc),
      f(r - dr, c - dc), f(r - 2 * dr, c - 2 * dc), f(r - 3 * dr, c - 3 * dc), f(r - 4 * dr, c - 4 * dc))
  {
    assert Five(f, r - dr, c - dc, dr, dc) <==>
      f(r - dr, c - dc) && f(r + dr, c + dc) && f(r + 2 * dr, c + 2 * dc) && f(r + 3 * dr, c + 3 * dc);
    assert Five(f, r - 2 * dr, c - 2 * dc, dr, dc) <==>
      f(r - 2 * dr, c - 2 * dc) && f(r - dr, c - dc) && f(r + dr, c + dc) && f(r + 2 * dr, c + 2 * dc);
    assert Five(f, r - 3 * dr, c - 3 * dc, dr, dc) <==>
      f(r - 3 * dr, c - 3 * dc) && f(r - 2 * dr, c - 2 * dc) && f(r - dr, c - dc) && f(r + dr, c + dc);
    assert Five(f, r - 4 * dr, c - 4 * dc, dr, dc) <==>
      f(r - 4 * dr, c - 4 * dc) && f(r - 3 * dr, c - 3 * dc) && f(r - 2 * dr, c - 2 * dc) && f(r - dr, c - dc);
  }

  lemma BackLengths(f: Marks, r: int, c: int, dr: int, dc: int)
    requires OnBoard(f) && Direction(dr, dc)
    ensures var n := Run(f, r - dr, c - dc, -dr, -dc);
      var s1, s2, s3, s4 := f(r - dr, c - dc), f(r - 2 * dr, c - 2 * dc), f(r - 3 * dr, c - 3 * dc), f(r - 4 * dr, c - 4 * dc);
      && (n >= 1 <==> s1) && (n >= 2 <==> s1 && s2) && (n >= 3 <==> s1 && s2 && s3) && (n >= 4 <==> s1 && s2 && s3 && s4)
  {
    var er, ec := -dr, -dc;
    RunLengths(f, r, c, er, ec);
    assert r - dr == r + er && c - dc == c + ec;
    assert r - 2 * dr == r + 2 * er && c - 2 * dc == c + 2 * ec;
    assert r - 3 * dr == r + 3 * er && c - 3 * dc == c + 3 * ec;
    assert r - 4 * dr == r + 4 * er && c - 4 * dc == c + 4 * ec;
  }

  /** The two runs from a mark reach over five places exactly when a row through it is complete. */
  lemma RunsDecide(f: Marks, r: int, c: int, dr: int, dc: int)
    requires OnBoard(f) && Direction(dr, dc) && f(r, c)
    ensures FiveThrough(f, r, c, dr, dc) == (Run(f, r + dr, c + dc, dr, dc) + Run(f, r - dr, c - dc, -dr, -dc) >= 4)
  {
    RowsThrough(f, r, c, dr, dc);
    RunLengths(f, r, c, dr, dc);
    BackLengths(f, r, c, dr, dc);
    FourAroundIs(Run(f, r + dr, c + dc, dr, dc), Run(f, r - dr, c - dc, -dr, -dc),
      f(r + dr, c + dc), f(r + 2 * dr, c + 2 * dc), f(r + 3 * dr, c + 3 * dc), f(r + 4 * dr, c + 4 * dc),
      f(r - dr, c - dc), f(r - 2 * dr, c - 2 * dc), f(r - 3 * dr, c - 3 * dc), f(r - 4 * dr, c - 4 * dc));
  }

  /** Some row through `(r, c)` is complete, in one of the four directions that `check_win` looks at. */
  ghost predicate WonAt(f: Marks, r: int, c: int) {
    FiveThrough(f, r, c, 0, 1) || FiveThrough(f, r, c, 1, 0) || FiveThrough(f, r, c, -1, 1) || FiveThrough(f, r, c, -1, -1)
  }

  /** Four directions are enough: the other four are the same lines. */
  lemma FourDirections(f: Marks, r: int, c: int, dr: int, dc: int)
    requires Direction(dr, dc) && f(r, c) && FiveThrough(f, r, c, dr, dc)
    ensures WonAt(f, r, c)
  {
    if dr == 1 && dc != 0 {
      ThroughReversed(f, r, c, -dr, -dc);
    } else if (dr == 0 && dc == -1) || (dr == -1 && dc == 0) {
      ThroughReversed(f, r, c, -dr, -dc);
    }
  }

  lemma WonIsAligned(f: Marks, r: int, c: int)
    requires WonAt(f, r, c)
    ensures Aligned(f)
  {
    var dr, dc :| Direction(dr, dc) && FiveThrough(f, r, c, dr, dc);
  }

  /** One more mark makes a row only through itself. */
  lemma NewRow(f: Marks, g: Marks, r: int, c: int)
    requires !Aligned(f) && forall x, y :: g(x, y) <==> f(x, y) || (x == r && y == c)
    ensures Aligned(g) <==> WonAt(g, r, c)
  {
    forall x, y, dr, dc | Direction(dr, dc) && Five(g, x, y, dr, dc) ensures WonAt(g, r, c) {
      assert !Five(f, x, y, dr, dc);
      RowThrough(g, r, c, x, y, dr, dc);
      FourDirections(g, r, c, dr, dc);
    }
    if WonAt(g, r, c) { WonIsAligned(g, r, c); }
  }

  /** A row that covers a place is one of the five rows through it. */
  lemma RowThrough(g: Marks, r: int, c: int, x: int, y: int, dr: int, dc: int)
    requires Five(g, x, y, dr, dc)
    requires (r == x && c == y) || (r == x + dr && c == y + dc) || (r == x + 2 * dr && c == y + 2 * dc)
          || (r == x + 3 * dr && c == y + 3 * dc) || (r == x + 4 * dr && c == y + 4 * dc)
    ensures FiveThrough(g, r, c, dr, dc)
  {}

  // ---------- The board ----------

  ghost function Stones(b: Board, color: int): Marks {
    (x, y) => 0 <= x < |b| && 0 <= y < |b[x]| && b[x][y] == color
  }

  lemma StonesOnBoard(b: Board, color: int)
    requires Square(b)
    ensures OnBoard(Stones(b, color))
  {}

  /** One of the two loops of `five`. */
  method CountRun(b: Board, r: int, c: int, dr: int, dc: int, color: int) returns (count: nat)
    requires Square(b) && Direction(dr, dc) && OnBoard(Stones(b, color))
    ensures count == Run(Stones(b, color), r, c, dr, dc)
  {
    var row, col := r, c;
    count := 0;
    while 0 <= row < SIZE && 0 <= col < SIZE && b[row][col] == color
      invariant count + Run(Stones(b, color), row, col, dr, dc) == Run(Stones(b, color), r, c, dr, dc)
      decreases Ahead(row, col, dr, dc)
    {
      count := count + 1;
      row, col := row + dr, col + dc;
    }
  }

  /** Both loops of `five`. */
  method CountLine(b: Board, r: int, c: int, dr: int, dc: int, color: int) returns (count: nat)
    requires Square(b) && Direction(dr, dc)
    ensures var f := Stones(b, color);
      OnBoard(f) && count == 1 + Run(f, r + dr, c + dc, dr, dc) + Run(f, r - dr, c - dc, -dr, -dc)
  {
    StonesOnBoard(b, color);
    var forward := CountRun(b, r + dr, c + dc, dr, dc, color);
    var backward := CountRun(b, r - dr, c - dc, -dr, -dc, color);
    count := 1 + forward + backward;
  }

  /** `five`: both runs from the stone together decide whether a row through it is complete. */
  method FiveInRow(b: Board, r: int, c: int, dr: int, dc: int, color: int) returns (won: bool)
    requires Square(b) && Direction(dr, dc) && Stones(b, color)(r, c)
    ensures won == FiveThrough(Stones(b, color), r, c, dr, dc)
  {
    var count := CountLine(b, r, c, dr, dc, color);
    RunsDecide(Stones(b, color), r, c, dr, dc);
    won := count >= 5;
  }

  function Put(b: Board, r: int, c: int, color: int): Board
    requires WellFormed(b) && 0 <= r < SIZE && 0 <= c < SIZE
  {
    b[r := b[r][c := color]]
  }

  lemma PutStones(b: Board, r: int, c: int, color: int, k: int)
    requires WellFormed(b) && 0 <= r < SIZE && 0 <= c < SIZE && b[r][c] == 0 && (color == WHITE || color == BLACK)
    requires k != 0
    ensures var f, g := Stones(b, k), Stones(Put(b, r, c, color), k);
      forall x, y :: g(x, y) <==> f(x, y) || (k == color && x == r && y == c)
  {}

  lemma PutWellFormed(b: Board, r: int, c: int, color: int)
    requires WellFormed(b) && 0 <= r < SIZE && 0 <= c < SIZE && (color == WHITE || color == BLACK)
    ensures WellFormed(Put(b, r, c, color))
  {}

  ghost predicate NoRow(b: Board) {
    !Aligned(Stones(b, WHITE)) && !Aligned(Stones(b, BLACK))
  }

  function Opponent(color: int): int {
    WHITE + BLACK - color
  }

  /** On a board without a row of five, a move makes one exactly when there is one through its stone. */
  lemma MoveWins(b: Board, r: int, c: int, color: int)
    requires WellFormed(b) && 0 <= r < SIZE && 0 <= c < SIZE && b[r][c] == 0 && (color == WHITE || color == BLACK)
    requires NoRow(b)
    ensures var b' := Put(b, r, c, color);
      && (Aligned(Stones(b', color)) <==> WonAt(Stones(b', color), r, c))
      && !Aligned(Stones(b', Opponent(color)))
  {
    var b', k := Put(b, r, c, color), Opponent(color);
    PutStones(b, r, c, color, color);
    PutStones(b, r, c, color, k);
    NewRow(Stones(b, color), Stones(b', color), r, c);
    SameRows(Stones(b, k), Stones(b', k));
  }

  lemma SameRows(f: Marks, g: Marks)
    requires !Aligned(f) && forall x, y :: g(x, y) ==> f(x, y)
    ensures !Aligned(g)
  {
    forall x, y, dr, dc | Direction(dr, dc) ensures !Five(g, x, y, dr, dc) {
      assert !Five(f, x, y, dr, dc);
    }
  }

  // ---------- The room ----------

  datatype Reply = Forfeit(winner: nat) | Occupied | Played(winner: nat)

  datatype Move = Move(row: nat, col: nat, uid: nat)

  class Room {
    const white: nat
    const black: nat
    var board: Board

    constructor (white: nat, black: nat)
      ensures WellFormed(board) && NoRow(board) && this.white == white && this.black == black
      ensures forall r, c :: 0 <= r < SIZE && 0 <= c < SIZE ==> board[r][c] == 0
    {
      this.white, this.black := white, black;
      board := seq(SIZE, _ => seq(SIZE, _ => 0));
    }

    function ColorOf(uid: nat): int {
      if uid == white then WHITE else BLACK
    }

    function IdOf(color: int): nat {
      if color == WHITE then white else black
    }

    predicate Player(uid: nat) {
      uid == white || uid == black
    }

    /** `check_win`. */
    method CheckWin(r: int, c: int, color: int) returns (winner: nat)
      requires WellFormed(board) && Stones(board, color)(r, c)
      ensures winner == if WonAt(Stones(board, color), r, c) then IdOf(color) else 0
    {
      var won := FiveInRow(board, r, c, 0, 1, color);
      if !won {
        won := FiveInRow(board, r, c, 1, 0, color);
      }
      if !won {
        won := FiveInRow(board, r, c, -1, 1, color);
      }
      if !won {
        won := FiveInRow(board, r, c, -1, -1, color);
      }
      winner := if won then IdOf(color) else 0;
    }

    /**
     `handle_chess`. As long as no row of five is on the board, the winner it names is the
     mover's id exactly when the whole board now holds one, and it is the mover's. The white
     player's stones are 1, all others 2, and a move changes no other place.
     */
    method HandleChess(m: Move, whiteOnline: bool, blackOnline: bool) returns (reply: Reply)
      requires WellFormed(board) && m.row < SIZE && m.col < SIZE
      modifies this
      ensures WellFormed(board)
      ensures !whiteOnline ==> reply == Forfeit(black) && board == old(board)
      ensures whiteOnline && !blackOnline ==> reply == Forfeit(white) && board == old(board)
      ensures whiteOnline && blackOnline ==>
        if old(board)[m.row][m.col] != 0 then reply == Occupied && board == old(board)
        else reply.Played? && board == Put(old(board), m.row, m.col, ColorOf(m.uid))
      ensures reply.Played? && NoRow(old(board)) ==>
        var color := ColorOf(m.uid);
        && reply.winner == (if Aligned(Stones(board, color)) then IdOf(color) else 0)
        && !Aligned(Stones(board, Opponent(color)))
      ensures reply.Played? ==>
        && board[m.row][m.col] == (if m.uid == white then 1 else 2)
        && forall r, c :: 0 <= r < 15 && 0 <= c < 15 && !(r == m.row && c == m.col) ==> board[r][c] == old(board)[r][c]
      ensures reply.Played? && reply.winner != 0 && white != black && Player(m.uid) ==> reply.winner == m.uid
    {
      if !whiteOnline {
        return Forfeit(black);
      }
      if !blackOnline {
        return Forfeit(white);
      }
      if board[m.row][m.col] != 0 {
        return Occupied;
      }
      var color := ColorOf(m.uid);
      PutWellFormed(board, m.row, m.col, color);
      if NoRow(board) {
        MoveWins(board, m.row, m.col, color);
      }
      board := Put(board, m.row, m.col, color);
      var winner := CheckWin(m.row, m.col, color);
      reply := Played(winner);
    }

    /** The board after a move, when both players are online. */
    ghost function AfterMove(b: Board, m: Move): Board
      requires WellFormed(b) && m.row < SIZE && m.col < SIZE
    {
      if b[m.row][m.col] != 0 then b else Put(b, m.row, m.col, ColorOf(m.uid))
    }

    /** Boards of a run of `n` moves: each follows from the one before it by its move, and no board before the last
        has a row. */
    ghost predicate Replays(boards: seq<Board>, moves: seq<Move>, n: nat) {
      && |boards| == n + 1 && n <= |moves|
      && forall i :: 0 <= i < n ==> Replayed(boards, moves, i)
    }

    /** The `i`th move leads from one board without a row to the next board. */
    ghost predicate Replayed(boards: seq<Board>, moves: seq<Move>, i: nat)
      requires i < |moves| && i + 1 < |boards|
    {
      && WellFormed(boards[i]) && NoRow(boards[i]) && moves[i].row < SIZE && moves[i].col < SIZE
      && boards[i + 1] == AfterMove(boards[i], moves[i])
    }

    lemma OneMoreBoard(boards: seq<Board>, moves: seq<Move>, n: nat, next: nat, before: Board, after: Board)
      requires Replays(boards, moves, n) && n < |moves| && next == n + 1 && boards[n] == before && WellFormed(before)
      requires NoRow(before)
      requires moves[n].row < SIZE && moves[n].col < SIZE && after == AfterMove(before, moves[n])
      ensures Replays(boards + [after], moves, next)
    {
      var bs := boards + [after];
      forall i | 0 <= i < next ensures Replayed(bs, moves, i) {
        assert bs[i] == boards[i];
        if i < n {
          assert Replayed(boards, moves, i);
          assert bs[i + 1] == boards[i + 1];
        }
      }
    }

    /**
     A run up to the first reported win, both players staying online; `boards` are the
     boards before, between and after the moves.
     */
    method Play(moves: seq<Move>) returns (winner: nat, played: nat, ghost boards: seq<Board>)
      requires WellFormed(board) && NoRow(board) && white != 0 && black != 0
      requires forall i :: 0 <= i < |moves| ==> moves[i].row < SIZE && moves[i].col < SIZE
      modifies this
      ensures WellFormed(board) && played <= |moves|
      ensures boards != [] && boards[0] == old(board) && boards[|boards| - 1] == board && Replays(boards, moves, played)
      ensures winner == 0 ==> played == |moves| && NoRow(board)
      ensures winner != 0 ==> 0 < played && var color := ColorOf(moves[played - 1].uid);
        winner == IdOf(color) && Aligned(Stones(board, color)) && !Aligned(Stones(board, Opponent(color)))
      ensures winner != 0 && white != black && Player(moves[played - 1].uid) ==>
        winner == moves[played - 1].uid && Aligned(Stones(board, if winner == white then 1 else 2))
    {
      winner, played, boards := 0, 0, [board];
      while played < |moves|
        invariant played <= |moves| && winner == 0 && WellFormed(board) && NoRow(board)
        invariant boards != [] && boards[0] == old(board) && boards[|boards| - 1] == board
        invariant Replays(boards, moves, played)
      {
        ghost var before := board;
        var reply := HandleChess(moves[played], true, true);
        var next := played + 1;
        OneMoreBoard(boards, moves, played, next, before, board);
        boards, played := boards + [board], next;
        if reply.Played? && reply.winner != 0 {
          winner := reply.winner;
          return;
        }
      }
    }
  }
}
