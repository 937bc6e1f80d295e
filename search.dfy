/** Depth-limited alpha-beta minimax over the demonstration board, with a
    transposition table keyed by the board's FEN text, stated on values.

    `Search` and `Loop` say what one call of the search does: the pair it
    returns, the table it leaves behind, the scores of the children it looked
    at and whether any lookup hit the table. The imperative search in module
    `Minimax` is proved equal to them. `FullMinimax` is plain minimax over the
    same tree, without pruning or table, against which the pruning is proved
    sound. */
module SearchModel {
  import opened Bitboard
  import opened Boards
  import opened Wrappers

  /** `std::numeric_limits<int>::min()` and `max()` for a 32-bit int. */
  const IntMin: int := -0x8000_0000
  const IntMax: int := 0x7fff_ffff

  type Int32 = x: int | IntMin <= x <= IntMax

  function Max(a: Int32, b: Int32): Int32
  {
    if a < b then b else a
  }

  function Min(a: Int32, b: Int32): Int32
  {
    if b < a then b else a
  }

  /** A search result and a table entry: a score, and the best move, where
      `None` is the null move `Move()`. */
  datatype Entry = Entry(score: Int32, move: Option<Move>)

  /** The transposition table: FEN text to the pair last computed for it.
      Entries carry neither the depth nor the window they were computed with. */
  type Table = map<string, Entry>

  /** What a search call does, as values: the pair it returns, the table it
      leaves, the scores of the children the node searched (in order; empty at
      a leaf or a table hit), and whether any lookup in the whole call found
      its key already in the table. */
  datatype Outcome = Outcome(result: Entry, table: Table, scores: seq<Int32>, hit: bool)

  function InitialBest(maximizing: bool): Int32
  {
    if maximizing then IntMin else IntMax
  }

  /** One call `minimax(board, depth, alpha, beta, maximizing)` on a board whose
      occupancy is `occ`, starting from table `table`. */
  function Search(occ: Word, table: Table, depth: nat, alpha: Int32, beta: Int32, maximizing: bool): Outcome
    decreases depth, 1
  {
    var key := FenOf(occ);
    if key in table then
      Outcome(table[key], table, [], true)
    else if depth == 0 || GameOverAt(occ) then
      var leaf := Entry(EvaluationOf(occ), None);
      Outcome(leaf, table[key := leaf], [], false)
    else
      var o := Loop(occ, table, MovesAt(occ), 0, depth, alpha, beta, maximizing, InitialBest(maximizing), None);
      Outcome(o.result, o.table[key := o.result], o.scores, o.hit)
  }

  /** The move loop of an inner node, over the moves not yet searched, with
      the running window and the running best score and move. */
  function Loop(occ: Word, table: Table, moves: seq<Move>, i: nat, depth: nat, alpha: Int32, beta: Int32,
                maximizing: bool, best: Int32, bestMove: Option<Move>): Outcome
    requires depth > 0 && i <= |moves|
    decreases depth, 0, |moves| - i
  {
    if i == |moves| then
      Outcome(Entry(best, bestMove), table, [], false)
    else
      var m := moves[i];
      var child := Search(Played(occ, m), table, depth - 1, alpha, beta, !maximizing);
      var e := child.result.score;
      var better := Better(maximizing, e, best);
      var best' := if better then e else best;
      var bestMove' := if better then Some(m) else bestMove;
      var alpha' := if maximizing then Max(alpha, e) else alpha;
      var beta' := if maximizing then beta else Min(beta, e);
      if beta' <= alpha' then
        Outcome(Entry(best', bestMove'), child.table, [e], child.hit)
      else
        var rest := Loop(occ, child.table, moves, i + 1, depth, alpha', beta', maximizing, best', bestMove');
        Outcome(rest.result, rest.table, [e] + rest.scores, child.hit || rest.hit)
  }

  /** x is strictly better than y for the side to move. */
  predicate Better(maximizing: bool, x: int, y: int)
  {
    if maximizing then x > y else x < y
  }

  // ---------------------------------------------------------------------
  // The table: what a call keeps, what it adds.

  /** A search call never changes or removes an entry that was in the table
      when it started; it only adds entries. */
  lemma {:induction false} SearchKeepsEntries(occ: Word, table: Table, depth: nat, alpha: Int32, beta: Int32,
                                              maximizing: bool)
    ensures var o := Search(occ, table, depth, alpha, beta, maximizing);
            forall k :: k in table ==> k in o.table && o.table[k] == table[k]
    decreases depth, 1
  {
    var key := FenOf(occ);
    if key !in table && !(depth == 0 || GameOverAt(occ)) {
      LoopKeepsEntries(occ, table, MovesAt(occ), 0, depth, alpha, beta, maximizing, InitialBest(maximizing), None);
    }
  }

  lemma {:induction false} LoopKeepsEntries(occ: Word, table: Table, moves: seq<Move>, i: nat, depth: nat,
                                            alpha: Int32, beta: Int32, maximizing: bool, best: Int32,
                                            bestMove: Option<Move>)
    requires depth > 0 && i <= |moves|
    ensures var o := Loop(occ, table, moves, i, depth, alpha, beta, maximizing, best, bestMove);
            forall k :: k in table ==> k in o.table && o.table[k] == table[k]
    decreases depth, 0, |moves| - i
  {
    if i < |moves| {
      var m := moves[i];
      var child := Search(Played(occ, m), table, depth - 1, alpha, beta, !maximizing);
      SearchKeepsEntries(Played(occ, m), table, depth - 1, alpha, beta, !maximizing);
      var e := child.result.score;
      var better := Better(maximizing, e, best);
      var best' := if better then e else best;
      var bestMove' := if better then Some(m) else bestMove;
      var alpha' := if maximizing then Max(alpha, e) else alpha;
      var beta' := if maximizing then beta else Min(beta, e);
      if alpha' < beta' {
        LoopKeepsEntries(occ, child.table, moves, i + 1, depth, alpha', beta', maximizing, best', bestMove');
      }
    }
  }

  // ---------------------------------------------------------------------
  // The move loop: which move wins, and where the loop stops.

  /** r is the first strictly best of the running best (best, bestMove) and
      the children with scores s, child t having been reached by moves[i + t]:
      no child scored better than r, r is no worse than best, and r is either
      (best, bestMove) unchanged or the score and move of a child that beat
      best and beat every child before it. */
  predicate FirstBest(maximizing: bool, s: seq<Int32>, moves: seq<Move>, i: nat, best: Int32,
                      bestMove: Option<Move>, r: Entry)
  {
    && i + |s| <= |moves|
    && (forall t :: 0 <= t < |s| ==> !Better(maximizing, s[t], r.score))
    && !Better(maximizing, best, r.score)
    && (|| r == Entry(best, bestMove)
        || exists t :: && 0 <= t < |s| && r == Entry(s[t], Some(moves[i + t]))
                       && Better(maximizing, s[t], best)
                       && forall u :: 0 <= u < t ==> Better(maximizing, s[t], s[u]))
  }

  /** One child in front: if r is first best after the child scoring e has
      updated the running best, r is first best counting that child too. */
  lemma FirstBestStep(maximizing: bool, e: Int32, rest: seq<Int32>, moves: seq<Move>, i: nat, best: Int32,
                      bestMove: Option<Move>, r: Entry)
    requires i < |moves|
    requires var better := Better(maximizing, e, best);
             FirstBest(maximizing, rest, moves, i + 1, if better then e else best,
                       if better then Some(moves[i]) else bestMove, r)
    ensures FirstBest(maximizing, [e] + rest, moves, i, best, bestMove, r)
  {
    var s := [e] + rest;
    var better := Better(maximizing, e, best);
    var best' := if better then e else best;
    var bestMove' := if better then Some(moves[i]) else bestMove;
    if r == Entry(best', bestMove') {
      if better {
        assert r == Entry(s[0], Some(moves[i + 0]));
      }
    } else {
      var t :| && 0 <= t < |rest| && r == Entry(rest[t], Some(moves[i + 1 + t]))
               && Better(maximizing, rest[t], best')
               && forall u :: 0 <= u < t ==> Better(maximizing, rest[t], rest[u]);
      assert s[t + 1] == rest[t];
      assert forall u :: 0 <= u < t + 1 ==> Better(maximizing, s[t + 1], s[u]);
      assert r == Entry(s[t + 1], Some(moves[i + (t + 1)]));
    }
    forall t | 0 <= t < |s|
      ensures !Better(maximizing, s[t], r.score)
    {
      if t > 0 {
        assert s[t] == rest[t - 1];
      }
    }
  }

  /** The loop's result is the first strictly best child (see `FirstBest`):
      later ties never replace an earlier move, and a loop with no children
      left returns the running best and its move unchanged. */
  lemma {:induction false} LoopFirstBest(occ: Word, table: Table, moves: seq<Move>, i: nat, depth: nat,
                                         alpha: Int32, beta: Int32, maximizing: bool, best: Int32,
                                         bestMove: Option<Move>)
    requires depth > 0 && i <= |moves|
    ensures var o := Loop(occ, table, moves, i, depth, alpha, beta, maximizing, best, bestMove);
            FirstBest(maximizing, o.scores, moves, i, best, bestMove, o.result)
    decreases |moves| - i
  {
    if i < |moves| {
      var m := moves[i];
      var child := Search(Played(occ, m), table, depth - 1, alpha, beta, !maximizing);
      var e := child.result.score;
      var better := Better(maximizing, e, best);
      var best' := if better then e else best;
      var bestMove' := if better then Some(m) else bestMove;
      var alpha' := if maximizing then Max(alpha, e) else alpha;
      var beta' := if maximizing then beta else Min(beta, e);
      if alpha' < beta' {
        LoopFirstBest(occ, child.table, moves, i + 1, depth, alpha', beta', maximizing, best', bestMove');
        var rest := Loop(occ, child.table, moves, i + 1, depth, alpha', beta', maximizing, best', bestMove');
        FirstBestStep(maximizing, e, rest.scores, moves, i, best, bestMove, rest.result);
      } else {
        FirstBestStep(maximizing, e, [], moves, i, best, bestMove, Entry(best', bestMove'));
        assert [e] + [] == [e];
      }
    }
  }

  /** alpha after the scores s, folded in from the front as the maximizing
      loop does with `alpha = std::max(alpha, evaluation)`. */
  function AlphaAfter(alpha: Int32, s: seq<Int32>): (r: Int32)
    ensures alpha <= r
    ensures forall t :: 0 <= t < |s| ==> s[t] <= r
    decreases |s|
  {
    if s == [] then alpha else AlphaAfter(Max(alpha, s[0]), s[1..])
  }

  /** beta after the scores s, as the minimizing loop folds them in with
      `beta = std::min(beta, evaluation)`. */
  function BetaAfter(beta: Int32, s: seq<Int32>): (r: Int32)
    ensures r <= beta
    ensures forall t :: 0 <= t < |s| ==> r <= s[t]
    decreases |s|
  {
    if s == [] then beta else BetaAfter(Min(beta, s[0]), s[1..])
  }

  /** After one child the window is (max(alpha, e), min(beta, e)). */
  lemma AfterOne(alpha: Int32, beta: Int32, e: Int32)
    ensures AlphaAfter(alpha, [e]) == Max(alpha, e) && BetaAfter(beta, [e]) == Min(beta, e)
  {
    assert [e][1..] == [];
    assert AlphaAfter(Max(alpha, e), []) == Max(alpha, e);
    assert BetaAfter(Min(beta, e), []) == Min(beta, e);
  }

  /** After the children with scores s the window has closed: `beta <= alpha`. */
  predicate CutAfter(maximizing: bool, alpha: Int32, beta: Int32, s: seq<Int32>)
  {
    if maximizing then beta <= AlphaAfter(alpha, s) else BetaAfter(beta, s) <= alpha
  }

  /** alpha never decreases and beta never increases as more children are
      searched. */
  lemma {:induction false} WindowNarrows(alpha: Int32, beta: Int32, s: seq<Int32>, t: nat)
    requires t <= |s|
    ensures AlphaAfter(alpha, s[..t]) <= AlphaAfter(alpha, s)
    ensures BetaAfter(beta, s) <= BetaAfter(beta, s[..t])
    decreases t
  {
    if t > 0 {
      assert s[..t][1..] == s[1..][..t - 1];
      WindowNarrows(Max(alpha, s[0]), Min(beta, s[0]), s[1..], t - 1);
    }
  }

  /** Scores s of the children a loop searched out of n: at least one when
      there is one, no closed window before the last of them, and fewer than n
      only because the window closed after the last of them. */
  predicate StopsAtFirstCutoff(maximizing: bool, alpha: Int32, beta: Int32, s: seq<Int32>, n: nat)
  {
    && |s| <= n
    && (n > 0 ==> |s| >= 1)
    && (forall t :: 1 <= t < |s| ==> !CutAfter(maximizing, alpha, beta, s[..t]))
    && (|s| < n ==> CutAfter(maximizing, alpha, beta, s))
  }

  /** One child in front of a loop that stopped at its first cutoff, when that
      child left the window open. */
  lemma CutoffStep(maximizing: bool, alpha: Int32, beta: Int32, e: Int32, rest: seq<Int32>, n: nat)
    requires n > 0
    requires !CutAfter(maximizing, alpha, beta, [e])
    requires StopsAtFirstCutoff(maximizing, if maximizing then Max(alpha, e) else alpha,
                                if maximizing then beta else Min(beta, e), rest, n - 1)
    ensures StopsAtFirstCutoff(maximizing, alpha, beta, [e] + rest, n)
  {
    var s := [e] + rest;
    assert [e][1..] == [];
    assert s[1..] == rest;
    forall t | 1 <= t < |s|
      ensures !CutAfter(maximizing, alpha, beta, s[..t])
    {
      assert s[..t][0] == e && s[..t][1..] == rest[..t - 1];
      if t == 1 {
        assert rest[..0] == [];
      }
    }
  }

  /** The loop stops right after the first child that closes the window
      (see `StopsAtFirstCutoff`). */
  lemma {:induction false} LoopStopsAtFirstCutoff(occ: Word, table: Table, moves: seq<Move>, i: nat, depth: nat,
                                                  alpha: Int32, beta: Int32, maximizing: bool, best: Int32,
                                                  bestMove: Option<Move>)
    requires depth > 0 && i <= |moves|
    ensures var s := Loop(occ, table, moves, i, depth, alpha, beta, maximizing, best, bestMove).scores;
            StopsAtFirstCutoff(maximizing, alpha, beta, s, |moves| - i)
    decreases |moves| - i
  {
    if i < |moves| {
      var m := moves[i];
      var child := Search(Played(occ, m), table, depth - 1, alpha, beta, !maximizing);
      var e := child.result.score;
      var better := Better(maximizing, e, best);
      var best' := if better then e else best;
      var bestMove' := if better then Some(m) else bestMove;
      var alpha' := if maximizing then Max(alpha, e) else alpha;
      var beta' := if maximizing then beta else Min(beta, e);
      AfterOne(alpha, beta, e);
      if alpha' < beta' {
        LoopStopsAtFirstCutoff(occ, child.table, moves, i + 1, depth, alpha', beta', maximizing, best', bestMove');
        var rest := Loop(occ, child.table, moves, i + 1, depth, alpha', beta', maximizing, best', bestMove').scores;
        CutoffStep(maximizing, alpha, beta, e, rest, |moves| - i);
      }
    }
  }

  // ---------------------------------------------------------------------
  // Pruning soundness.

  /** Plain minimax over the same tree: no table and no window. */
  function FullMinimax(occ: Word, depth: nat, maximizing: bool): Int32
    decreases depth, 1
  {
    if depth == 0 || GameOverAt(occ) then EvaluationOf(occ)
    else FullBest(occ, MovesAt(occ), 0, depth, maximizing, InitialBest(maximizing))
  }

  /** The best of acc and the plain minimax values of the children moves[i..]. */
  function FullBest(occ: Word, moves: seq<Move>, i: nat, depth: nat, maximizing: bool, acc: Int32): (r: Int32)
    requires depth > 0 && i <= |moves|
    ensures if maximizing then acc <= r else r <= acc
    decreases depth, 0, |moves| - i
  {
    if i == |moves| then acc
    else
      var f := FullMinimax(Played(occ, moves[i]), depth - 1, !maximizing);
      FullBest(occ, moves, i + 1, depth, maximizing, if maximizing then Max(acc, f) else Min(acc, f))
  }

  /** What a fail-soft search with window (lo, hi) promises about its score r
      against the exact minimax value f: a score at or below lo is an upper
      bound of f, a score strictly inside the window is f itself, and a score
      at or above hi is a lower bound of f. */
  predicate Bounded(lo: int, hi: int, r: int, f: int)
  {
    && (r <= lo ==> f <= r)
    && (lo < r < hi ==> f == r)
    && (hi <= r ==> r <= f)
  }

  /** A search with an open window that hits no table entry anywhere in its
      tree returns a fail-soft bound of the plain minimax value. */
  lemma {:induction false} SearchSound(occ: Word, table: Table, depth: nat, alpha: Int32, beta: Int32,
                                       maximizing: bool)
    requires alpha < beta
    requires !Search(occ, table, depth, alpha, beta, maximizing).hit
    ensures Bounded(alpha, beta, Search(occ, table, depth, alpha, beta, maximizing).result.score,
                    FullMinimax(occ, depth, maximizing))
    decreases depth, 1
  {
    if !(depth == 0 || GameOverAt(occ)) {
      var init := InitialBest(maximizing);
      LoopSound(occ, table, MovesAt(occ), 0, depth, alpha, beta, maximizing, init, None, alpha, beta, init);
    }
  }

  /** The move loop keeps, for the window (lo, hi) its node was called with,
      the running window (a, b), the running best and the plain minimax value
      acc of the children searched so far in step: the side's own bound is lo
      or hi tightened by best, acc is no better than best, and acc equals best
      once best lies beyond the node's own bound. */
  lemma {:induction false} LoopSound(occ: Word, table: Table, moves: seq<Move>, i: nat, depth: nat,
                                     lo: Int32, hi: Int32, maximizing: bool, best: Int32, bestMove: Option<Move>,
                                     a: Int32, b: Int32, acc: Int32)
    requires depth > 0 && i <= |moves| && a < b
    requires maximizing ==> a == Max(lo, best) && b == hi && acc <= best && (lo < best ==> acc == best)
    requires !maximizing ==> b == Min(hi, best) && a == lo && best <= acc && (best < hi ==> acc == best)
    requires !Loop(occ, table, moves, i, depth, a, b, maximizing, best, bestMove).hit
    ensures Bounded(lo, hi, Loop(occ, table, moves, i, depth, a, b, maximizing, best, bestMove).result.score,
                    FullBest(occ, moves, i, depth, maximizing, acc))
    decreases depth, 0, |moves| - i
  {
    if i < |moves| {
      var m := moves[i];
      var child := Search(Played(occ, m), table, depth - 1, a, b, !maximizing);
      SearchSound(Played(occ, m), table, depth - 1, a, b, !maximizing);
      var e := child.result.score;
      var f := FullMinimax(Played(occ, m), depth - 1, !maximizing);
      var better := Better(maximizing, e, best);
      var best' := if better then e else best;
      var bestMove' := if better then Some(m) else bestMove;
      var a' := if maximizing then Max(a, e) else a;
      var b' := if maximizing then b else Min(b, e);
      var acc' := if maximizing then Max(acc, f) else Min(acc, f);
      if a' < b' {
        LoopSound(occ, child.table, moves, i + 1, depth, lo, hi, maximizing, best', bestMove', a', b', acc');
      }
    }
  }

  /** At the root, called with the full window (INT_MIN, INT_MAX), a search
      that hits no table entry returns exactly the plain minimax value:
      alpha-beta pruning does not change the score. */
  lemma RootSearchIsMinimax(occ: Word, table: Table, depth: nat, maximizing: bool)
    requires !Search(occ, table, depth, IntMin, IntMax, maximizing).hit
    ensures Search(occ, table, depth, IntMin, IntMax, maximizing).result.score == FullMinimax(occ, depth, maximizing)
  {
    SearchSound(occ, table, depth, IntMin, IntMax, maximizing);
  }

  // ---------------------------------------------------------------------
  // The demonstration board, searched one ply deep from an empty table.

  /** The three children of any position have three different keys, none of
      them the parent's, so a one-ply search from an empty table never hits. */
  lemma DepthOneNoHit(occ: Word, alpha: Int32, beta: Int32, maximizing: bool)
    ensures !Search(occ, map[], 1, alpha, beta, maximizing).hit
  {
    var init := InitialBest(maximizing);
    LoopDepthOneNoHit(occ, map[], 0, alpha, beta, maximizing, init, None);
  }

  /** The one-ply move loop from child i on, with a table holding only keys of
      the children before i, never hits. */
  lemma {:induction false} LoopDepthOneNoHit(occ: Word, table: Table, i: nat, alpha: Int32, beta: Int32,
                                             maximizing: bool, best: Int32, bestMove: Option<Move>)
    requires i <= 3
    requires forall k :: k in table ==> exists j :: 0 <= j < i && k == FenOf(Played(occ, MovesAt(occ)[j]))
    ensures !Loop(occ, table, MovesAt(occ), i, 1, alpha, beta, maximizing, best, bestMove).hit
    decreases 3 - i
  {
    var moves := MovesAt(occ);
    if i < 3 {
      var m := moves[i];
      var key := FenOf(Played(occ, m));
      if key in table {
        var j :| 0 <= j < i && key == FenOf(Played(occ, moves[j]));
        FenInjective(Played(occ, m), Played(occ, moves[j]));
        ToggleDistinct(occ, m.from, moves[j].from);
        assert false;
      }
      var child := Search(Played(occ, m), table, 0, alpha, beta, !maximizing);
      assert child.table == table[key := child.result];
      var e := child.result.score;
      var better := Better(maximizing, e, best);
      var best' := if better then e else best;
      var bestMove' := if better then Some(m) else bestMove;
      var alpha' := if maximizing then Max(alpha, e) else alpha;
      var beta' := if maximizing then beta else Min(beta, e);
      if alpha' < beta' {
        LoopDepthOneNoHit(occ, child.table, i + 1, alpha', beta', maximizing, best', bestMove');
      }
    }
  }

  /** From a position with A2, B2 and C2 empty every push adds one piece, so
      all three children tie; the search keeps the first of them, A2-A3, and
      its score is one more than the position's popcount, for either side. */
  lemma FirstOfEqualChildrenWins(occ: Word)
    requires A2 !in occ && B2 !in occ && C2 !in occ
    ensures Search(occ, map[], 1, IntMin, IntMax, true).result == Entry(PopCount(occ) + 1, Some(Move(A2, A3)))
    ensures Search(occ, map[], 1, IntMin, IntMax, false).result == Entry(PopCount(occ) + 1, Some(Move(A2, A3)))
  {
    var moves := MovesAt(occ);
    var p := PopCount(occ);
    PopCountToggle(occ, A2);
    PopCountToggle(occ, B2);
    PopCountToggle(occ, C2);
    var key := FenOf(Played(occ, moves[0]));
    var t1 := map[key := Entry(p + 1, None)];
    LoopDepthOneTied(occ, t1, 1, p + 1, IntMax, true, p + 1, Some(Move(A2, A3)));
    LoopDepthOneTied(occ, t1, 1, IntMin, p + 1, false, p + 1, Some(Move(A2, A3)));
  }

  /** A one-ply loop from child i on, whose remaining children all evaluate to
      the running best and never close the window, keeps the running best and
      its move. */
  lemma {:induction false} LoopDepthOneTied(occ: Word, table: Table, i: nat, alpha: Int32, beta: Int32,
                                            maximizing: bool, best: Int32, bestMove: Option<Move>)
    requires i <= 3
    requires forall k :: k in table ==> exists j :: 0 <= j < i && k == FenOf(Played(occ, MovesAt(occ)[j]))
    requires forall j :: i <= j < 3 ==> EvaluationOf(Played(occ, MovesAt(occ)[j])) == best
    requires if maximizing then alpha == best && best < beta else best == beta && alpha < best
    ensures Loop(occ, table, MovesAt(occ), i, 1, alpha, beta, maximizing, best, bestMove).result == Entry(best, bestMove)
    decreases 3 - i
  {
    var moves := MovesAt(occ);
    if i < 3 {
      var m := moves[i];
      var key := FenOf(Played(occ, m));
      if key in table {
        var j :| 0 <= j < i && key == FenOf(Played(occ, moves[j]));
        FenInjective(Played(occ, m), Played(occ, moves[j]));
        ToggleDistinct(occ, m.from, moves[j].from);
        assert false;
      }
      var child := Search(Played(occ, m), table, 0, alpha, beta, !maximizing);
      assert child.result == Entry(best, None);
      LoopDepthOneTied(occ, child.table, i + 1, alpha, beta, maximizing, best, bestMove);
    }
  }
}
