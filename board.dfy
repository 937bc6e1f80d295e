/** The demonstration board that the search runs on: one 64-bit occupancy
    word, whose hexadecimal text is the position key, whose popcount is the
    evaluation, and on which every move toggles the bit of its origin square. */
module Boards {
  import opened Bitboard

  /** A move; its origin is the only part the demonstration board uses.
      The null move `Move()` is modelled apart, as `None` of an `Option<Move>`. */
  datatype Move = Move(from: Square, to: Square)

  const A2: Square := 8
  const B2: Square := 9
  const C2: Square := 10
  const A3: Square := 16
  const B3: Square := 17
  const C3: Square := 18

  // The board's observers, as functions of the occupancy word.

  /** The position key: the word's value as `%llx` text. */
  function FenOf(occupancy: Word): string
  {
    Hex(Value(occupancy))
  }

  /** The key is lower-case hexadecimal without leading zeros, and at most 16
      characters long, so `snprintf` into the 20-byte buffer never truncates. */
  lemma FenFits(occupancy: Word)
    ensures 1 <= |FenOf(occupancy)| <= 16
    ensures forall i :: 0 <= i < |FenOf(occupancy)| ==> IsHexDigit(FenOf(occupancy)[i])
    ensures FenOf(occupancy)[0] == '0' <==> Value(occupancy) == 0
  {
    WordHexLength(occupancy);
    HexCanonical(Value(occupancy));
  }

  /** Distinct occupancy words give distinct transposition-table keys. */
  lemma FenInjective(x: Word, y: Word)
    requires FenOf(x) == FenOf(y)
    ensures x == y
  {
    HexInjective(Value(x), Value(y));
    ValueInjective(x, y);
  }

  /** The demonstration board never reports the game as over. */
  predicate GameOverAt(occupancy: Word)
  {
    false
  }

  /** The evaluation: the number of occupied squares. */
  function EvaluationOf(occupancy: Word): nat
  {
    PopCount(occupancy)
  }

  /** The move list: the same three pawn pushes from any position. */
  function MovesAt(occupancy: Word): seq<Move>
  {
    [Move(A2, A3), Move(B2, B3), Move(C2, C3)]
  }

  /** The occupancy after playing, or after taking back, move m. */
  function Played(occupancy: Word, m: Move): Word
  {
    Toggle(occupancy, m.from)
  }

  /** Taking a move back restores the word exactly. */
  lemma PlayedTwice(occupancy: Word, m: Move)
    ensures Played(Played(occupancy, m), m) == occupancy
  {
    ToggleInvolution(occupancy, m.from);
  }

  class Board {
    var occupancy: Word

    constructor ()
      ensures occupancy == {} && Value(occupancy) == 0 && Fen() == "0"
    {
      occupancy := {};
      ValueBelowEmpty(64);
    }

    function Fen(): string
      reads this
    {
      FenOf(occupancy)
    }

    predicate IsGameOver()
      reads this
    {
      GameOverAt(occupancy)
    }

    function Evaluate(): int
      reads this
    {
      EvaluationOf(occupancy)
    }

    function GenerateMoves(): seq<Move>
      reads this
    {
      MovesAt(occupancy)
    }

    method MakeMove(m: Move)
      modifies this
      ensures occupancy == Played(old(occupancy), m)
    {
      occupancy := Toggle(occupancy, m.from);
    }

    method UndoMove(m: Move)
      modifies this
      ensures occupancy == Played(old(occupancy), m)
    {
      occupancy := Toggle(occupancy, m.from);
    }
  }
}
