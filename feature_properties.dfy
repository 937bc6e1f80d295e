/** Properties of the network's input vector `Features.FeatureVector`: where
    the count entries come from, and how the vector behaves when the board is
    mirrored left to right, when the colours are swapped with the ranks
    flipped, and when only the side to move changes. */
module FeatureProperties {
  import opened Wrappers
  import opened Features

  // ---------------------------------------------------------------------
  // The count entries.

  /** The signed count of the pieces of one kind on square (file, rank). */
  function KindAt(b: Position, kind: Kind, file: nat, rank: nat): int
    requires file < 8 && rank < 8
  {
    match b.placement[SquareAt(file, rank)]
    case None => 0
    case Some(p) => if p.kind == kind then Colour(p) else 0
  }

  function KindColumn(b: Position, kind: Kind, file: nat, n: nat): int
    requires file < 8 && n <= 8
  {
    if n == 0 then 0 else KindColumn(b, kind, file, n - 1) + KindAt(b, kind, file, n - 1)
  }

  function KindBoard(b: Position, kind: Kind, n: nat): int
    requires n <= 8
  {
    if n == 0 then 0 else KindBoard(b, kind, n - 1) + KindColumn(b, kind, n - 1, 8)
  }

  /** The number of white pieces of a kind minus the number of black ones. */
  function NetCount(b: Position, kind: Kind): int
  {
    KindBoard(b, kind, 8)
  }

  /** No pawn stands on the far rank of its owner (rank 8 for white, rank 1
      for black), as in every legal position. */
  predicate NoPawnOnFarRank(b: Position)
  {
    forall s :: 0 <= s < 64 && b.placement[s].Some? && b.placement[s].value.kind == Pawn ==>
      RelativeRank(b.placement[s].value, s / 8) != 7
  }

  lemma SquareParts(file: nat, rank: nat)
    requires file < 8 && rank < 8
    ensures SquareAt(file, rank) / 8 == rank && SquareAt(file, rank) % 8 == file
  {
  }

  /** On one square, a count entry of a kind other than the pawn receives
      exactly that square's signed count of the kind. */
  lemma DeltaAtCountSlot(b: Position, kind: Kind, file: nat, rank: nat)
    requires kind != Pawn && NoPawnOnFarRank(b) && file < 8 && rank < 8
    ensures Delta(b, file, rank, CountSlot(kind)) == KindAt(b, kind, file, rank)
  {
    SquareParts(file, rank);
    match b.placement[SquareAt(file, rank)]
    case None =>
    case Some(p) =>
      assert (CountSlot(p.kind) == CountSlot(kind)) == (p.kind == kind);
      if p.kind == Pawn {
        assert RelativeRank(p, rank) != 7;
      }
      assert SquareSlot(p, file, rank) != CountSlot(kind);
  }

  lemma {:induction false} ColumnAtCountSlot(b: Position, kind: Kind, file: nat, n: nat)
    requires kind != Pawn && NoPawnOnFarRank(b) && file < 8 && n <= 8
    ensures ColumnSum(b, file, n, CountSlot(kind)) == KindColumn(b, kind, file, n)
  {
    if n > 0 {
      ColumnAtCountSlot(b, kind, file, n - 1);
      DeltaAtCountSlot(b, kind, file, n - 1);
    }
  }

  lemma {:induction false} BoardAtCountSlot(b: Position, kind: Kind, n: nat)
    requires kind != Pawn && NoPawnOnFarRank(b) && n <= 8
    ensures BoardSum(b, n, CountSlot(kind)) == KindBoard(b, kind, n)
  {
    if n > 0 {
      BoardAtCountSlot(b, kind, n - 1);
      ColumnAtCountSlot(b, kind, n - 1, 8);
    }
  }

  /** Entries 184..188 hold the net counts of kings, queens, rooks, bishops
      and knights, as long as no pawn stands on its far rank (a pawn there
      would land on one of 184..187). */
  lemma CountEntriesHoldNetCounts(b: Position, kind: Kind)
    requires kind != Pawn && NoPawnOnFarRank(b)
    ensures 184 <= CountSlot(kind) <= 188
    ensures FeatureVector(b)[CountSlot(kind)] == NetCount(b, kind)
  {
    BoardAtCountSlot(b, kind, 8);
  }

  /** A white pawn on d7 writes its positional colour into entry 183, which is
      also the pawn-count entry: that entry then differs from the net pawn
      count, here 2 against 1. */
  lemma PawnSharesCountEntry()
    ensures var b := Position(EmptyPlacement()[SquareAt(3, 6) := Some(Piece(Pawn, true))], true);
            CountSlot(Pawn) == 183 && FeatureVector(b)[183] == 2 && NetCount(b, Pawn) == 1
  {
    var b := Position(EmptyPlacement()[SquareAt(3, 6) := Some(Piece(Pawn, true))], true);
    assert SquareSlot(Piece(Pawn, true), 3, 6) == 183;
    forall f, r | 0 <= f < 8 && 0 <= r < 8 && (f, r) != (3, 6)
      ensures b.placement[SquareAt(f, r)] == None
    {
      SquareParts(f, r);
    }
    forall f | 0 <= f < 8 && f != 3
      ensures ColumnSum(b, f, 8, 183) == 0 && KindColumn(b, Pawn, f, 8) == 0
    {
      EmptyColumn(b, f, 8, 183);
    }
    BoardSumFiles(b, 183);
    ColumnSumRanks(b, 3, 183);
    assert ColumnSum(b, 3, 8, 183) == 2;
    KindBoardFiles(b, Pawn);
    KindColumnRanks(b, Pawn, 3);
  }

  lemma {:induction false} EmptyColumn(b: Position, f: nat, n: nat, k: int)
    requires f < 8 && n <= 8
    requires forall r :: 0 <= r < 8 ==> b.placement[SquareAt(f, r)] == None
    ensures ColumnSum(b, f, n, k) == 0 && KindColumn(b, Pawn, f, n) == 0
  {
    if n > 0 {
      EmptyColumn(b, f, n - 1, k);
    }
  }

  /** A net count over the eight files, written out. */
  lemma KindBoardFiles(b: Position, kind: Kind)
    ensures KindBoard(b, kind, 8) == KindColumn(b, kind, 0, 8) + KindColumn(b, kind, 1, 8) + KindColumn(b, kind, 2, 8)
              + KindColumn(b, kind, 3, 8) + KindColumn(b, kind, 4, 8) + KindColumn(b, kind, 5, 8)
              + KindColumn(b, kind, 6, 8) + KindColumn(b, kind, 7, 8)
  {
    assert KindBoard(b, kind, 1) == KindColumn(b, kind, 0, 8);
    assert KindBoard(b, kind, 3) == KindBoard(b, kind, 1) + KindColumn(b, kind, 1, 8) + KindColumn(b, kind, 2, 8);
    assert KindBoard(b, kind, 5) == KindBoard(b, kind, 3) + KindColumn(b, kind, 3, 8) + KindColumn(b, kind, 4, 8);
    assert KindBoard(b, kind, 7) == KindBoard(b, kind, 5) + KindColumn(b, kind, 5, 8) + KindColumn(b, kind, 6, 8);
  }

  /** A net count over the eight ranks of one file, written out. */
  lemma KindColumnRanks(b: Position, kind: Kind, file: nat)
    requires file < 8
    ensures KindColumn(b, kind, file, 8) == KindAt(b, kind, file, 0) + KindAt(b, kind, file, 1) + KindAt(b, kind, file, 2)
              + KindAt(b, kind, file, 3) + KindAt(b, kind, file, 4) + KindAt(b, kind, file, 5)
              + KindAt(b, kind, file, 6) + KindAt(b, kind, file, 7)
  {
    assert KindColumn(b, kind, file, 1) == KindAt(b, kind, file, 0);
    assert KindColumn(b, kind, file, 3) == KindColumn(b, kind, file, 1) + KindAt(b, kind, file, 1) + KindAt(b, kind, file, 2);
    assert KindColumn(b, kind, file, 5) == KindColumn(b, kind, file, 3) + KindAt(b, kind, file, 3) + KindAt(b, kind, file, 4);
    assert KindColumn(b, kind, file, 7) == KindColumn(b, kind, file, 5) + KindAt(b, kind, file, 5) + KindAt(b, kind, file, 6);
  }

  // ---------------------------------------------------------------------
  // Mirroring the files.

  /** The board reflected left to right: file a swaps with h, b with g, ... */
  function MirrorFiles(b: Position): (m: Position)
    ensures forall file, rank :: 0 <= file < 8 && 0 <= rank < 8 ==>
              m.placement[SquareAt(file, rank)] == b.placement[SquareAt(7 - file, rank)]
  {
    var cells: seq<Option<Piece>> := seq(64, s requires 0 <= s < 64 => b.placement[(s / 8) * 8 + (7 - s % 8)]);
    var m := Position(cells, b.turn);
    assert forall file, rank :: 0 <= file < 8 && 0 <= rank < 8 ==>
             SquareAt(file, rank) / 8 == rank && SquareAt(file, rank) % 8 == file;
    m
  }

  lemma {:induction false} MirrorColumn(b: Position, file: nat, n: nat, k: int)
    requires file < 8 && n <= 8
    ensures ColumnSum(MirrorFiles(b), file, n, k) == ColumnSum(b, 7 - file, n, k)
  {
    if n > 0 {
      MirrorColumn(b, file, n - 1, k);
      assert Delta(MirrorFiles(b), file, n - 1, k) == Delta(b, 7 - file, n - 1, k);
    }
  }

  /** A sum over the eight files, written out. */
  lemma BoardSumFiles(b: Position, k: int)
    ensures BoardSum(b, 8, k) == ColumnSum(b, 0, 8, k) + ColumnSum(b, 1, 8, k) + ColumnSum(b, 2, 8, k)
              + ColumnSum(b, 3, 8, k) + ColumnSum(b, 4, 8, k) + ColumnSum(b, 5, 8, k)
              + ColumnSum(b, 6, 8, k) + ColumnSum(b, 7, 8, k)
  {
    assert BoardSum(b, 1, k) == ColumnSum(b, 0, 8, k);
    assert BoardSum(b, 3, k) == BoardSum(b, 1, k) + ColumnSum(b, 1, 8, k) + ColumnSum(b, 2, 8, k);
    assert BoardSum(b, 5, k) == BoardSum(b, 3, k) + ColumnSum(b, 3, 8, k) + ColumnSum(b, 4, 8, k);
    assert BoardSum(b, 7, k) == BoardSum(b, 5, k) + ColumnSum(b, 5, 8, k) + ColumnSum(b, 6, 8, k);
  }

  /** Mirroring the board left to right leaves the input vector as it was:
      the encoding folds files e..h onto d..a. */
  lemma MirrorInvariant(b: Position)
    ensures FeatureVector(MirrorFiles(b)) == FeatureVector(b)
  {
    forall k | 0 <= k < 189
      ensures FeatureVector(MirrorFiles(b))[k] == FeatureVector(b)[k]
    {
      BoardSumFiles(b, k);
      BoardSumFiles(MirrorFiles(b), k);
      forall f | 0 <= f < 8
        ensures ColumnSum(MirrorFiles(b), f, 8, k) == ColumnSum(b, 7 - f, 8, k)
      {
        MirrorColumn(b, f, 8, k);
      }
    }
  }

  // ---------------------------------------------------------------------
  // Swapping the colours.

  function Recolour(cell: Option<Piece>): Option<Piece>
  {
    match cell
    case None => None
    case Some(p) => Some(Piece(p.kind, !p.white))
  }

  /** python-chess's `board.mirror()`: the board flipped top to bottom with
      every piece's colour swapped, and the other side to move. */
  function SwapColours(b: Position): (m: Position)
    ensures forall file, rank :: 0 <= file < 8 && 0 <= rank < 8 ==>
              m.placement[SquareAt(file, rank)] == Recolour(b.placement[SquareAt(file, 7 - rank)])
    ensures m.turn == !b.turn
  {
    var cells: seq<Option<Piece>> := seq(64, s requires 0 <= s < 64 => Recolour(b.placement[(7 - s / 8) * 8 + s % 8]));
    var m := Position(cells, !b.turn);
    assert forall file, rank :: 0 <= file < 8 && 0 <= rank < 8 ==>
             SquareAt(file, rank) / 8 == rank && SquareAt(file, rank) % 8 == file;
    m
  }

  lemma SwapDelta(b: Position, file: nat, rank: nat, k: int)
    requires file < 8 && rank < 8
    ensures Delta(SwapColours(b), file, rank, k) == -Delta(b, file, 7 - rank, k)
  {
    match b.placement[SquareAt(file, 7 - rank)]
    case None =>
    case Some(p) =>
      var q := Piece(p.kind, !p.white);
      assert SwapColours(b).placement[SquareAt(file, rank)] == Some(q);
      assert RelativeRank(q, rank) == RelativeRank(p, 7 - rank);
      assert SquareSlot(q, file, rank) == SquareSlot(p, file, 7 - rank);
  }

  /** A sum over the eight ranks of one file, written out. */
  lemma ColumnSumRanks(b: Position, file: nat, k: int)
    requires file < 8
    ensures ColumnSum(b, file, 8, k) == Delta(b, file, 0, k) + Delta(b, file, 1, k) + Delta(b, file, 2, k)
              + Delta(b, file, 3, k) + Delta(b, file, 4, k) + Delta(b, file, 5, k)
              + Delta(b, file, 6, k) + Delta(b, file, 7, k)
  {
    assert ColumnSum(b, file, 1, k) == Delta(b, file, 0, k);
    assert ColumnSum(b, file, 3, k) == ColumnSum(b, file, 1, k) + Delta(b, file, 1, k) + Delta(b, file, 2, k);
    assert ColumnSum(b, file, 5, k) == ColumnSum(b, file, 3, k) + Delta(b, file, 3, k) + Delta(b, file, 4, k);
    assert ColumnSum(b, file, 7, k) == ColumnSum(b, file, 5, k) + Delta(b, file, 5, k) + Delta(b, file, 6, k);
  }

  lemma SwapColumn(b: Position, file: nat, k: int)
    requires file < 8
    ensures ColumnSum(SwapColours(b), file, 8, k) == -ColumnSum(b, file, 8, k)
  {
    ColumnSumRanks(b, file, k);
    ColumnSumRanks(SwapColours(b), file, k);
    forall r | 0 <= r < 8
      ensures Delta(SwapColours(b), file, r, k) == -Delta(b, file, 7 - r, k)
    {
      SwapDelta(b, file, r, k);
    }
  }

  lemma {:induction false} SwapBoard(b: Position, n: nat, k: int)
    requires n <= 8
    ensures BoardSum(SwapColours(b), n, k) == -BoardSum(b, n, k)
  {
    if n > 0 {
      SwapBoard(b, n - 1, k);
      SwapColumn(b, n - 1, k);
    }
  }

  /** Swapping the colours and flipping the board top to bottom negates
      every entry of the input vector. */
  lemma SwapNegates(b: Position)
    ensures forall k :: 0 <= k < 189 ==> FeatureVector(SwapColours(b))[k] == -FeatureVector(b)[k]
  {
    forall k | 0 <= k < 189
      ensures FeatureVector(SwapColours(b))[k] == -FeatureVector(b)[k]
    {
      SwapBoard(b, 8, k);
    }
  }

  // ---------------------------------------------------------------------
  // The side to move.

  lemma {:induction false} TurnColumn(b: Position, turn: bool, file: nat, n: nat, k: int)
    requires file < 8 && n <= 8
    ensures ColumnSum(b.(turn := turn), file, n, k) == ColumnSum(b, file, n, k)
  {
    if n > 0 {
      TurnColumn(b, turn, file, n - 1, k);
    }
  }

  lemma {:induction false} TurnBoard(b: Position, turn: bool, n: nat, k: int)
    requires n <= 8
    ensures BoardSum(b.(turn := turn), n, k) == BoardSum(b, n, k)
  {
    if n > 0 {
      TurnBoard(b, turn, n - 1, k);
      TurnColumn(b, turn, n - 1, 8, k);
    }
  }

  /** The vector does not depend on the side to move: the function reads
      `board.turn` and never uses it. */
  lemma TurnIgnored(b: Position, turn: bool)
    ensures FeatureVector(b.(turn := turn)) == FeatureVector(b)
  {
    forall k | 0 <= k < 189
      ensures FeatureVector(b.(turn := turn))[k] == FeatureVector(b)[k]
    {
      TurnBoard(b, turn, 8, k);
    }
  }
}
