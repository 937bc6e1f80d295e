/** The imperative search: `minimax` playing and taking back moves on a
    `Board` in place and recording every pair it computes in the global
    transposition table, proved equal, call by call, to `SearchModel.Search`. */
module Minimax {
  import opened Bitboard
  import opened Boards
  import opened Wrappers
  import opened SearchModel

  /** The global `transposition_table`, made an object of its own. */
  class TranspositionTable {
    var entries: Table

    constructor ()
      ensures entries == map[]
    {
      entries := map[];
    }
  }

  /** `minimax(board, depth, alpha, beta, maximizing)`. It leaves the board
      as it found it, computes what `Search` says, returns a stored pair on a
      table hit without touching the table, evaluates and stores a leaf, keeps
      every entry that was already there, and always ends with its result
      stored under the key the board had on entry. */
  method Minimax(board: Board, table: TranspositionTable, depth: int, alpha: Int32, beta: Int32, maximizing: bool)
    returns (score: Int32, bestMove: Option<Move>)
    requires depth >= 0
    modifies board, table
    ensures board.occupancy == old(board.occupancy)
    ensures var o := Search(old(board.occupancy), old(table.entries), depth, alpha, beta, maximizing);
            Entry(score, bestMove) == o.result && table.entries == o.table
    ensures old(board.Fen() in table.entries) ==>
              Entry(score, bestMove) == old(table.entries[board.Fen()]) && table.entries == old(table.entries)
    ensures old(board.Fen() !in table.entries) && (depth == 0 || old(board.IsGameOver())) ==>
              score == old(board.Evaluate()) && bestMove == None
              && table.entries == old(table.entries)[old(board.Fen()) := Entry(score, None)]
    ensures forall k :: k in old(table.entries) ==> k in table.entries && table.entries[k] == old(table.entries)[k]
    ensures board.Fen() == old(board.Fen()) && board.Fen() in table.entries
            && table.entries[board.Fen()] == Entry(score, bestMove)
    decreases depth, 1
  {
    SearchKeepsEntries(board.occupancy, table.entries, depth, alpha, beta, maximizing);
    var boardKey := board.Fen();
    if boardKey in table.entries {
      var stored := table.entries[boardKey];
      return stored.score, stored.move;
    }
    if depth == 0 || board.IsGameOver() {
      var s := board.Evaluate();
      table.entries := table.entries[boardKey := Entry(s, None)];
      return s, None;
    }
    if maximizing {
      score, bestMove := MaxChildren(board, table, depth, alpha, beta);
      table.entries := table.entries[board.Fen() := Entry(score, bestMove)];
    } else {
      score, bestMove := MinChildren(board, table, depth, alpha, beta);
      table.entries := table.entries[boardKey := Entry(score, bestMove)];
    }
  }

  /** The maximizing branch's move loop: every move is played, searched one
      ply deeper for the minimizing side with the current (alpha, beta), and
      taken back; a strictly higher score replaces the best move; alpha rises
      to each score, and the loop stops once beta <= alpha. */
  method MaxChildren(board: Board, table: TranspositionTable, depth: int, alpha: Int32, beta: Int32)
    returns (maxEval: Int32, best: Option<Move>)
    requires depth > 0
    modifies board, table
    ensures board.occupancy == old(board.occupancy)
    ensures var o := Loop(old(board.occupancy), old(table.entries), MovesAt(old(board.occupancy)), 0, depth, alpha, beta, true, IntMin, None);
            Entry(maxEval, best) == o.result && table.entries == o.table
    decreases depth, 0
  {
    ghost var occ := board.occupancy;
    ghost var table0 := table.entries;
    maxEval, best := IntMin, None;
    var a: Int32 := alpha;
    var moves := board.GenerateMoves();
    ghost var goal := Loop(occ, table0, moves, 0, depth, alpha, beta, true, IntMin, None);
    var i := 0;
    while i < |moves|
      invariant 0 <= i <= |moves| && moves == MovesAt(occ)
      invariant board.occupancy == occ
      invariant var rest := Loop(occ, table.entries, moves, i, depth, a, beta, true, maxEval, best);
                goal.result == rest.result && goal.table == rest.table
    {
      var move := moves[i];
      board.MakeMove(move);
      var evaluation, _ := Minimax(board, table, depth - 1, a, beta, false);
      board.UndoMove(move);
      PlayedTwice(occ, move);
      if evaluation > maxEval {
        maxEval := evaluation;
        best := Some(move);
      }
      a := Max(a, evaluation);
      if beta <= a {
        break;
      }
      i := i + 1;
    }
  }

  /** The minimizing branch's move loop, the mirror image of `MaxChildren`:
      a strictly lower score replaces the best move and beta falls to each
      score. */
  method MinChildren(board: Board, table: TranspositionTable, depth: int, alpha: Int32, beta: Int32)
    returns (minEval: Int32, bestLocal: Option<Move>)
    requires depth > 0
    modifies board, table
    ensures board.occupancy == old(board.occupancy)
    ensures var o := Loop(old(board.occupancy), old(table.entries), MovesAt(old(board.occupancy)), 0, depth, alpha, beta, false, IntMax, None);
            Entry(minEval, bestLocal) == o.result && table.entries == o.table
    decreases depth, 0
  {
    ghost var occ := board.occupancy;
    ghost var table0 := table.entries;
    minEval, bestLocal := IntMax, None;
    var b: Int32 := beta;
    var moves := board.GenerateMoves();
    ghost var goal := Loop(occ, table0, moves, 0, depth, alpha, beta, false, IntMax, None);
    var i := 0;
    while i < |moves|
      invariant 0 <= i <= |moves| && moves == MovesAt(occ)
      invariant board.occupancy == occ
      invariant var rest := Loop(occ, table.entries, moves, i, depth, alpha, b, false, minEval, bestLocal);
                goal.result == rest.result && goal.table == rest.table
    {
      var move := moves[i];
      board.MakeMove(move);
      var evaluation, _ := Minimax(board, table, depth - 1, alpha, b, true);
      board.UndoMove(move);
      PlayedTwice(occ, move);
      if evaluation < minEval {
        minEval := evaluation;
        bestLocal := Some(move);
      }
      b := Min(b, evaluation);
      if b <= alpha {
        break;
      }
      i := i + 1;
    }
  }

  /** The binding's reporting rule: the null move is reported as "", any
      other move as its text under the move encoding `encode`. */
  function Report(bestMove: Option<Move>, encode: Move -> string): string
  {
    if bestMove == None then "" else encode(bestMove.value)
  }

  /** With an encoding that never yields "", the report is "" exactly for
      the null move. */
  lemma ReportNullMove(bestMove: Option<Move>, encode: Move -> string)
    requires forall m :: encode(m) != ""
    ensures Report(bestMove, encode) == "" <==> bestMove == None
    ensures bestMove != None ==> Report(bestMove, encode) == encode(bestMove.value)
  {
  }
}
