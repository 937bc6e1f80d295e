/** The 189-entry input vector of the evaluation network, `neural_net_input`.

    For each of the 64 squares, visited file by file (i) and, within a file,
    rank by rank (j), an occupied square adds its piece's colour (+1 white,
    -1 black) twice: once to the piece-kind count slot `188 - index`, and once
    to a positional slot computed from the kind index, the rank seen from the
    piece owner's side, and the file folded onto the queen side (files e..h
    map onto d..a). Pawns have one fewer possible rank, so their positional
    slots are shifted down by one rank.

    `NeuralNetInput` runs the two loops on the 189-entry list, and
    `VisitSquare` does one square's work through the piece's one-letter text
    as the Python does. `FeatureVector` is the same vector stated entry by
    entry from the piece kinds, and `LoopComputesFeatureVector` connects the
    two. */
module Features {
  import opened Wrappers

  datatype Kind = Pawn | Knight | Bishop | Rook | Queen | King

  datatype Piece = Piece(kind: Kind, white: bool)

  /** A python-chess board as the encoding uses it: the piece on each square
      (square = 8 * rank + file, A1 = 0) and the side to move. */
  type Placement = s: seq<Option<Piece>> | |s| == 64 witness EmptyPlacement()

  function EmptyPlacement(): seq<Option<Piece>>
  {
    seq(64, _ => None)
  }

  datatype Position = Position(placement: Placement, turn: bool)

  /** `chess.square(file, rank)`. */
  function SquareAt(file: nat, rank: nat): (s: nat)
    requires file < 8 && rank < 8
    ensures s < 64
  {
    rank * 8 + file
  }

  // ---------------------------------------------------------------------
  // The piece text the Python works on.

  /** `Piece.symbol()`: upper case for white, lower case for black. */
  function Symbol(p: Piece): char
  {
    var c := match p.kind
      case Pawn => 'p'
      case Knight => 'n'
      case Bishop => 'b'
      case Rook => 'r'
      case Queen => 'q'
      case King => 'k';
    if p.white then c - 'a' as char + 'A' else c
  }

  /** `str(board.piece_at(square))`: the symbol, or "None" for an empty square. */
  function PieceText(cell: Option<Piece>): string
  {
    match cell
    case None => "None"
    case Some(p) => [Symbol(p)]
  }

  function LowerChar(c: char): char
  {
    if 'A' <= c <= 'Z' then c - 'A' + 'a' else c
  }

  /** `str.lower()` on ASCII text. A text is its own lower case exactly when
      it holds no upper-case letter, which is what the colour test relies on. */
  function Lower(s: string): (r: string)
    ensures |r| == |s|
    ensures r == s <==> forall i :: 0 <= i < |s| ==> !('A' <= s[i] <= 'Z')
  {
    seq(|s|, i requires 0 <= i < |s| => LowerChar(s[i]))
  }

  /** The Python's `piece_index` dictionary. */
  const PieceIndexTable: map<string, int> := map["p" := 5, "n" := 0, "b" := 1, "r" := 2, "q" := 3, "k" := 4]

  // ---------------------------------------------------------------------
  // The encoding stated on piece kinds.

  /** `piece_index` by kind; a value 0..5. */
  function KindIndex(k: Kind): (r: nat)
    ensures r <= 5
  {
    match k
    case Knight => 0
    case Bishop => 1
    case Rook => 2
    case Queen => 3
    case King => 4
    case Pawn => 5
  }

  function Colour(p: Piece): int
  {
    if p.white then 1 else -1
  }

  /** The rank seen from the piece owner's side: 0 is the owner's back rank. */
  function RelativeRank(p: Piece, rank: nat): (r: nat)
    requires rank < 8
    ensures r < 8
  {
    if p.white then rank else 7 - rank
  }

  /** Files e..h folded onto d..a; a file and its mirror image fold alike. */
  function FoldedFile(file: nat): (r: nat)
    requires file < 8
    ensures r < 4
  {
    if file > 3 then 7 - file else file
  }

  /** The count slot of a kind: 188 for knights down to 183 for pawns. */
  function CountSlot(k: Kind): (s: nat)
    ensures 183 <= s <= 188
    ensures k != Pawn ==> s >= 184
  {
    188 - KindIndex(k)
  }

  /** The positional slot of piece p on (file, rank). A piece other than a
      pawn lands in 0..159; a pawn lands in 156..187, which reaches below 160
      only from the owner's back rank, and reaches the count slots above 183
      only from the far rank. */
  function SquareSlot(p: Piece, file: nat, rank: nat): (s: int)
    requires file < 8 && rank < 8
    ensures p.kind != Pawn ==> 0 <= s <= 159
    ensures p.kind == Pawn ==> 156 <= s <= 187
    ensures p.kind == Pawn && RelativeRank(p, rank) != 7 ==> s <= 183
    ensures p.kind == Pawn && RelativeRank(p, rank) != 0 ==> s >= 160
  {
    var r := RelativeRank(p, rank);
    if p.kind != Pawn then KindIndex(p.kind) * 32 + r * 4 + FoldedFile(file)
    else KindIndex(p.kind) * 32 + (r - 1) * 4 + FoldedFile(file)
  }

  /** What the square (file, rank) adds to entry k. */
  function Delta(b: Position, file: nat, rank: nat, k: int): int
    requires file < 8 && rank < 8
  {
    match b.placement[SquareAt(file, rank)]
    case None => 0
    case Some(p) =>
      (if k == CountSlot(p.kind) then Colour(p) else 0) + (if k == SquareSlot(p, file, rank) then Colour(p) else 0)
  }

  /** Entry k summed over the first n ranks of one file. */
  function ColumnSum(b: Position, file: nat, n: nat, k: int): int
    requires file < 8 && n <= 8
  {
    if n == 0 then 0 else ColumnSum(b, file, n - 1, k) + Delta(b, file, n - 1, k)
  }

  /** Entry k summed over the whole of the first n files. */
  function BoardSum(b: Position, n: nat, k: int): int
    requires n <= 8
  {
    if n == 0 then 0 else BoardSum(b, n - 1, k) + ColumnSum(b, n - 1, 8, k)
  }

  /** The input vector, entry by entry. */
  function FeatureVector(b: Position): (r: seq<int>)
    ensures |r| == 189
  {
    seq(189, k => BoardSum(b, 8, k))
  }

  function Sum(s: seq<int>): int
  {
    if s == [] then 0 else Sum(s[..|s| - 1]) + s[|s| - 1]
  }

  /** The signed piece count of one square, of a file prefix, of the board:
      white pieces count +1, black pieces -1. */
  function Balance(b: Position, file: nat, rank: nat): int
    requires file < 8 && rank < 8
  {
    match b.placement[SquareAt(file, rank)]
    case None => 0
    case Some(p) => Colour(p)
  }

  function ColumnBalance(b: Position, file: nat, n: nat): int
    requires file < 8 && n <= 8
  {
    if n == 0 then 0 else ColumnBalance(b, file, n - 1) + Balance(b, file, n - 1)
  }

  function BoardBalance(b: Position, n: nat): int
    requires n <= 8
  {
    if n == 0 then 0 else BoardBalance(b, n - 1) + ColumnBalance(b, n - 1, 8)
  }

  /** The number of white pieces minus the number of black pieces. */
  function WhiteMinusBlack(b: Position): int
  {
    BoardBalance(b, 8)
  }

  // ---------------------------------------------------------------------
  // The Python loop.

  /** The text chain the loop runs each piece through ends where the kind
      encoding says: the lower-cased text is in `piece_index` at the kind's
      index, is "p" exactly for a pawn, and the text is its own lower case
      exactly for a black piece. An empty square lower-cases to "none". */
  lemma PieceTextChain(cell: Option<Piece>)
    ensures cell == None ==> Lower(PieceText(cell)) == "none" && PieceText(cell) != Lower(PieceText(cell))
    ensures cell.Some? ==>
              var t := Lower(PieceText(cell));
              && t != "none" && t in PieceIndexTable && PieceIndexTable[t] == KindIndex(cell.value.kind)
              && (t == "p" <==> cell.value.kind == Pawn)
              && (PieceText(cell) == t <==> !cell.value.white)
  {
    if cell == None {
      assert Lower("None")[0] == 'n';
    } else {
      var t := Lower(PieceText(cell));
      assert t == [LowerChar(Symbol(cell.value))];
      if cell.value.white {
        assert PieceText(cell)[0] != t[0];
      }
    }
  }

  /** Adding x to one entry adds x to the total. */
  lemma {:induction false} SumUpdate(s: seq<int>, k: nat, x: int)
    requires k < |s|
    ensures Sum(AddAt(s, k, x)) == Sum(s) + x
  {
    var r := AddAt(s, k, x);
    if k < |s| - 1 {
      assert r[..|s| - 1] == AddAt(s[..|s| - 1], k, x);
      SumUpdate(s[..|s| - 1], k, x);
    } else {
      assert r[..|s| - 1] == s[..|s| - 1];
    }
  }

  /** `inputs[k] += x`. */
  function AddAt(s: seq<int>, k: nat, x: int): (r: seq<int>)
    requires k < |s|
    ensures |r| == |s| && r[k] == s[k] + x
    ensures forall i :: 0 <= i < |s| && i != k ==> r[i] == s[i]
  {
    s[k := s[k] + x]
  }

  /** One square's visit: an occupied square adds its piece's colour at its
      count slot and then at its positional slot; an empty one adds nothing. */
  function Visit(s: seq<int>, b: Position, file: nat, rank: nat): (r: seq<int>)
    requires |s| == 189 && file < 8 && rank < 8
    ensures |r| == 189
  {
    match b.placement[SquareAt(file, rank)]
    case None => s
    case Some(p) => AddAt(AddAt(s, CountSlot(p.kind), Colour(p)), SquareSlot(p, file, rank), Colour(p))
  }

  /** The buffer once the loop has visited the first n files. */
  function AfterFiles(b: Position, n: nat): (r: seq<int>)
    requires n <= 8
    ensures |r| == 189
    decreases n, 9
  {
    if n == 0 then seq(189, _ => 0) else AfterRanks(b, n - 1, 8)
  }

  /** The buffer once the loop has visited the first `file` files and the
      first n ranks of the next one. */
  function AfterRanks(b: Position, file: nat, n: nat): (r: seq<int>)
    requires file < 8 && n <= 8
    ensures |r| == 189
    decreases file + 1, n
  {
    if n == 0 then AfterFiles(b, file) else Visit(AfterRanks(b, file, n - 1), b, file, n - 1)
  }

  /** A visit adds the square's contribution to every entry. */
  lemma VisitEntries(s: seq<int>, b: Position, file: nat, rank: nat)
    requires |s| == 189 && file < 8 && rank < 8
    ensures forall k :: 0 <= k < 189 ==> Visit(s, b, file, rank)[k] == s[k] + Delta(b, file, rank, k)
  {
  }

  /** A visit adds twice the square's signed count to the total. */
  lemma VisitSum(s: seq<int>, b: Position, file: nat, rank: nat)
    requires |s| == 189 && file < 8 && rank < 8
    ensures Sum(Visit(s, b, file, rank)) == Sum(s) + 2 * Balance(b, file, rank)
  {
    match b.placement[SquareAt(file, rank)]
    case None =>
    case Some(p) =>
      var c := CountSlot(p.kind);
      SumUpdate(s, c, Colour(p));
      SumUpdate(AddAt(s, c, Colour(p)), SquareSlot(p, file, rank), Colour(p));
  }

  lemma {:induction false} AfterRanksEntries(b: Position, file: nat, n: nat)
    requires file < 8 && n <= 8
    ensures forall k :: 0 <= k < 189 ==> AfterRanks(b, file, n)[k] == BoardSum(b, file, k) + ColumnSum(b, file, n, k)
    decreases file + 1, n
  {
    if n == 0 {
      AfterFilesEntries(b, file);
    } else {
      AfterRanksEntries(b, file, n - 1);
      VisitEntries(AfterRanks(b, file, n - 1), b, file, n - 1);
    }
  }

  lemma {:induction false} AfterFilesEntries(b: Position, n: nat)
    requires n <= 8
    ensures forall k :: 0 <= k < 189 ==> AfterFiles(b, n)[k] == BoardSum(b, n, k)
    decreases n, 9
  {
    if n > 0 {
      AfterRanksEntries(b, n - 1, 8);
    }
  }

  /** The loop's buffer at the end is the input vector. */
  lemma LoopComputesFeatureVector(b: Position)
    ensures AfterFiles(b, 8) == FeatureVector(b)
  {
    AfterFilesEntries(b, 8);
  }

  lemma {:induction false} AfterRanksSum(b: Position, file: nat, n: nat)
    requires file < 8 && n <= 8
    ensures Sum(AfterRanks(b, file, n)) == 2 * (BoardBalance(b, file) + ColumnBalance(b, file, n))
    decreases file + 1, n
  {
    if n == 0 {
      AfterFilesSum(b, file);
    } else {
      AfterRanksSum(b, file, n - 1);
      VisitSum(AfterRanks(b, file, n - 1), b, file, n - 1);
    }
  }

  lemma {:induction false} AfterFilesSum(b: Position, n: nat)
    requires n <= 8
    ensures Sum(AfterFiles(b, n)) == 2 * BoardBalance(b, n)
    decreases n, 9
  {
    if n == 0 {
      ZeroSum(189);
    } else {
      AfterRanksSum(b, n - 1, 8);
    }
  }

  /** Every piece adds its colour to exactly two entries, so the entries add
      up to twice the difference between the numbers of white and black pieces. */
  lemma FeatureSum(b: Position)
    ensures Sum(FeatureVector(b)) == 2 * WhiteMinusBlack(b)
  {
    LoopComputesFeatureVector(b);
    AfterFilesSum(b, 8);
  }

  /** The body of the inner loop for square (file, rank), on the piece's
      text as the Python does it: the colour from the case of the symbol,
      the rank flipped for black, the file folded, then the two updates. */
  method VisitSquare(board: Position, i: nat, j: nat, inputs: seq<int>) returns (updated: seq<int>)
    requires i < 8 && j < 8 && |inputs| == 189
    ensures updated == Visit(inputs, board, i, j)
  {
    updated := inputs;
    var square := SquareAt(i, j);
    var piece := PieceText(board.placement[square]);
    PieceTextChain(board.placement[square]);
    var color := 1;
    if piece == Lower(piece) {
      color := color * -1;
    }
    piece := Lower(piece);
    var rank := j;
    if color == -1 {
      rank := 7 - j;
    }
    var file := i;
    if file > 3 {
      file := 7 - i;
    }
    if piece != "none" {
      ghost var p := board.placement[square].value;
      assert color == Colour(p) && rank == RelativeRank(p, j) && file == FoldedFile(i);
      var index := |updated| - 1 - PieceIndexTable[piece];
      assert index == CountSlot(p.kind);
      updated := AddAt(updated, index, color);
      var slot;
      if piece != "p" {
        slot := PieceIndexTable[piece] * 32 + rank * 4 + file;
      } else {
        slot := PieceIndexTable[piece] * 32 + (rank - 1) * 4 + file;
      }
      assert slot == SquareSlot(p, i, j);
      updated := AddAt(updated, slot, color);
    }
  }

  /** `neural_net_input(board)`: the vector `FeatureVector(board)`, whose
      entries add up to twice the difference between the numbers of white and
      black pieces. */
  method NeuralNetInput(board: Position) returns (result: seq<int>)
    ensures result == FeatureVector(board)
    ensures Sum(result) == 2 * WhiteMinusBlack(board)
  {
    var inputs := seq(189, _ => 0);
    var currentPlayer := board.turn;
    var i := 0;
    while i < 8
      invariant 0 <= i <= 8
      invariant inputs == AfterFiles(board, i)
    {
      var j := 0;
      while j < 8
        invariant 0 <= j <= 8
        invariant inputs == AfterRanks(board, i, j)
      {
        inputs := VisitSquare(board, i, j, inputs);
        j := j + 1;
      }
      i := i + 1;
    }
    LoopComputesFeatureVector(board);
    FeatureSum(board);
    return inputs;
  }

  lemma {:induction false} ZeroSum(n: nat)
    ensures Sum(seq(n, _ => 0)) == 0
  {
    if n > 0 {
      assert seq(n, _ => 0)[..n - 1] == seq(n - 1, _ => 0);
      ZeroSum(n - 1);
    }
  }
}
