# A verified model of the chess engine's search and network input

This project models two pieces of a small chess engine:

- **The C++ search module.** It has a demonstration `Board` whose whole state is one 64-bit occupancy word. There is a global transposition table, keyed by the board's FEN text. `minimax` is a depth-limited alpha-beta search on the board: it plays and takes back moves in place and records every pair it computes in the table. The Python binding reports the null move as `""`.
- **The Python function `neural_net_input`.** It turns a python-chess board into the 189 numbers the evaluation network reads.

The modules follow that structure:

- `Bitboard` (bitboard.dfy): the 64-bit word is modelled as the set of its one-bits. The module gives its unsigned value, the one-bit XOR, the popcount, and `%llx` hexadecimal text.
- `Boards` (board.dfy): moves, and the `Board` class with its observers and its in-place `MakeMove`/`UndoMove`.
- `SearchModel` (search.dfy): one call of the search as a value.
  - `Search` and `Loop` give the pair returned, the table left behind, the scores of the children searched, and whether any lookup hit.
  - `FullMinimax` is plain minimax.
  - The lemmas cover table growth, tie-breaking, cutoffs and pruning soundness.
- `Minimax` (minimax.dfy): the imperative search.
  - `TranspositionTable` is a class holding the map.
  - `Minimax` and its two move loops, `MaxChildren` and `MinChildren`, mutate the board and the table. They are proved equal, call by call, to `Search`/`Loop`.
  - `Report` is the binding's "" rule.
- `Features` (features.dfy): the network input.
  - `NeuralNetInput` runs the two nested loops over the 189-entry list.
  - `VisitSquare` does one square's work through the piece's text, as the Python does.
  - `FeatureVector` states the same vector entry by entry.
- `FeatureProperties` (feature_properties.dfy): the count entries, and how the vector behaves under a left-right mirror, a colour swap with the ranks flipped, and a change of the side to move.
- `Wrappers` (wrappers.dfy): `Option`.

## Model

| member | source | states |
|---|---|---|
| Bitboard.ValueInjective | src/minimax.cpp:21 | two occupancy words with the same unsigned value have the same bits |
| Bitboard.ValueBound | src/minimax.cpp:21 | every occupancy word's value is below 2^64 |
| Bitboard.ToggleInvolution | src/minimax.cpp:53 | XOR with the same one-bit mask twice gives the word back |
| Bitboard.ToggleDistinct | src/minimax.cpp:53 | toggling two different squares of one word gives two different words |
| Bitboard.PopCountToggle | src/minimax.cpp:38-40 | toggling one bit moves the popcount up or down by exactly one, depending on whether the bit was set |
| Bitboard.PopCount | src/minimax.cpp:39 | the number of set bits is at most 64 |
| Bitboard.HexRoundTrip | src/minimax.cpp:30 | `%llx` text consists of lower-case hex digits and reads back to the number it was written from |
| Bitboard.HexCanonical | src/minimax.cpp:30 | every character is a lower-case hex digit, and only zero renders with a leading '0' |
| Bitboard.HexInjective | src/minimax.cpp:30 | different numbers never render to the same text |
| Bitboard.HexLength | src/minimax.cpp:29-30 | a number below 2^(4m) renders to at most m digits |
| Bitboard.WordHexLength | src/minimax.cpp:29-30 | a 64-bit word renders to at most 16 digits, so it fits the 20-byte buffer with its NUL |
| Boards.FenFits | src/minimax.cpp:28-32 | the key is 1 to 16 lower-case hex digits with no leading zero except for "0", so `snprintf` never truncates it |
| Boards.FenInjective | src/minimax.cpp:28-32 | distinct occupancy words give distinct table keys |
| Boards.FenOf | src/minimax.cpp:28-32 | no contract; its body is the definition of `fen()`, the `%llx` text of the occupancy value. `FenFits` and `FenInjective` state its properties |
| Boards.Board.Fen | src/minimax.cpp:28-32 | no contract; the board's key, `FenOf` of its occupancy |
| Boards.GameOverAt | src/minimax.cpp:34-36 | no contract; its body is the definition of `is_game_over()`, which is always false |
| Boards.Board.IsGameOver | src/minimax.cpp:34-36 | no contract; `GameOverAt` of the board's occupancy |
| Boards.EvaluationOf | src/minimax.cpp:38-40 | no contract; its body is the definition of `evaluate()`, the popcount of the occupancy |
| Boards.Board.Evaluate | src/minimax.cpp:38-40 | no contract; `EvaluationOf` of the board's occupancy |
| Boards.MovesAt | src/minimax.cpp:43-49 | no contract; its body is the definition of `generate_moves()`: the pushes A2-A3, B2-B3, C2-C3 from every position, in that order |
| Boards.Board.GenerateMoves | src/minimax.cpp:43-49 | no contract; `MovesAt` of the board's occupancy |
| Boards.Played | src/minimax.cpp:51-58 | no contract; the occupancy after `make_move` or `undo_move`, the origin bit toggled. `PlayedTwice` states its inverse property |
| Boards.PlayedTwice | src/minimax.cpp:51-58 | undoing a move after making it restores the occupancy exactly |
| Boards.Board.constructor | src/minimax.cpp:23-26 | a new board has an empty occupancy, value 0 and key "0" |
| Boards.Board.MakeMove | src/minimax.cpp:51-54 | the occupancy becomes the old one with the origin square's bit flipped, and nothing else changes |
| Boards.Board.UndoMove | src/minimax.cpp:56-58 | the same bit flip as `MakeMove` |
| SearchModel.Search | src/minimax.cpp:76-126 | no contract; its body defines one call of `minimax` as a value: the lookup, the leaf, and the move loop followed by the store. `Minimax.Minimax` is proved equal to it, and the lemmas below state its properties |
| SearchModel.Loop | src/minimax.cpp:90-124 | no contract; its body defines the move loop from child i on, with the running window and the running best, as a value. `MaxChildren` and `MinChildren` are proved equal to it |
| SearchModel.FullMinimax | src/minimax.cpp:76-126 | no contract; plain minimax over the same move tree without table or window, the reference that `SearchSound` and `RootSearchIsMinimax` compare the search against |
| SearchModel.SearchKeepsEntries | src/minimax.cpp:76-126 | a search call never changes or removes an entry that was already in the table; it only adds entries |
| SearchModel.LoopKeepsEntries | src/minimax.cpp:93-104 | the move loop likewise keeps every entry already in the table |
| SearchModel.LoopFirstBest | src/minimax.cpp:91-104 | the loop's result is the first child scoring strictly better than the running best, so later ties never replace an earlier move. With no child better, or no children at all, it is the initial pair (INT_MIN or INT_MAX, null move) |
| SearchModel.AlphaAfter | src/minimax.cpp:101 | alpha after the scores seen is at least the starting alpha and at least every score |
| SearchModel.BetaAfter | src/minimax.cpp:119 | beta after the scores seen is at most the starting beta and at most every score |
| SearchModel.WindowNarrows | src/minimax.cpp:101-102 | alpha never decreases and beta never increases as more children are searched |
| SearchModel.LoopStopsAtFirstCutoff | src/minimax.cpp:93-104 | the loop searches at least one child whenever there is one. It stops right after the first child after which beta <= alpha, and it searches every child when no cutoff happens |
| SearchModel.FullBest | src/minimax.cpp:97-100 | the best of a running value and the plain minimax values of the remaining children is no worse than the running value |
| SearchModel.SearchSound | src/minimax.cpp:76-126 | when no lookup hits, a search with window (alpha, beta) fails soft. A score at or below alpha bounds the true minimax value from above, a score at or above beta bounds it from below, and a score strictly inside the window equals it |
| SearchModel.LoopSound | src/minimax.cpp:90-124 | the move loop keeps that window property for the window its node was called with |
| SearchModel.RootSearchIsMinimax | src/minimax.cpp:76-126 | a root search with (INT_MIN, INT_MAX) that hits no table entry returns the plain minimax value |
| SearchModel.DepthOneNoHit | src/minimax.cpp:77-86 | a one-ply search from an empty table never hits, because the three children have three different keys. So the no-hit hypothesis can be met at depth 1. On this board it is not met at depth 2: playing A2 then B2 gives the same occupancy as B2 then A2, so a full-window search of depth 2 from an empty table reaches one position twice and hits the table. For such searches `RootSearchIsMinimax` says nothing, and `SearchSound` covers only the sub-searches that do not hit |
| SearchModel.FirstOfEqualChildrenWins | src/minimax.cpp:97-100 | with A2, B2 and C2 empty, all three children tie at popcount+1, and both the maximizing and the minimizing search return the first move A2-A3 |
| Minimax.TranspositionTable.constructor | src/minimax.cpp:73 | the table starts empty |
| Minimax.Minimax | src/minimax.cpp:76-126 | the board ends as it started, and the result and the table are those of `Search`. On a hit it returns the stored pair and leaves the table alone. At a leaf it returns (evaluate, null move) and stores exactly that pair. Every older entry is kept. The result is stored under the key the board had on entry. In the maximizing branch that key is the one re-read at line 105 |
| Minimax.MaxChildren | src/minimax.cpp:90-104 | the maximizing move loop restores the board, and its result and table are those of `Loop` |
| Minimax.MinChildren | src/minimax.cpp:107-122 | the minimizing move loop restores the board, and its result and table are those of `Loop` |
| Minimax.Report | src/minimax.cpp:145 | no contract; its body is the binding's conversion: "" for the null move, otherwise the move's text. `ReportNullMove` states its property |
| Minimax.ReportNullMove | src/minimax.cpp:145 | with a move encoding that never gives "", the reported move is "" exactly for the null move, and any other move is reported as its encoding |
| Features.Symbol | ai/inputReaderl.py:27 | no contract; python-chess's piece symbol, upper case for white and lower case for black |
| Features.PieceText | ai/inputReaderl.py:27 | no contract; `str(board.piece_at(square))`: the symbol, or "None" for an empty square |
| Features.Lower | ai/inputReaderl.py:29-31 | `lower()` keeps the length, and a text equals its lower case exactly when it contains no upper-case letter, which is the colour test of line 29 |
| Features.PieceTextChain | ai/inputReaderl.py:27-31 | an empty square's text lowers to "none". A piece's lowered text is a key of `piece_index` mapping to the kind's index, it is "p" exactly for a pawn, and it equals the unlowered text exactly for a black piece; this is the colour test |
| Features.FoldedFile | ai/inputReaderl.py:35-37 | the folded file is below 4 |
| Features.RelativeRank | ai/inputReaderl.py:32-34 | the rank seen from the owner's side is below 8 |
| Features.CountSlot | ai/inputReaderl.py:39 | the count entry `188 - index` lies in 183..188, and in 184..188 for every kind other than the pawn |
| Features.SquareSlot | ai/inputReaderl.py:41-44 | a non-pawn's positional entry lies in 0..159 and a pawn's in 156..187. A pawn reaches above 183 only from its far rank and below 160 only from its back rank |
| Features.Visit | ai/inputReaderl.py:38-44 | one square's two `+=` updates stated on piece kinds, keeping the length 189. `VisitEntries` and `VisitSum` state what it adds, and `VisitSquare` is proved to perform it |
| Features.FeatureVector | ai/inputReaderl.py:20-45 | the 189-entry input vector defined entry by entry, as the sum over all squares of each square's contribution. `NeuralNetInput` is proved to return it |
| Features.VisitEntries | ai/inputReaderl.py:38-44 | one square's visit adds that square's contribution to every entry |
| Features.VisitSum | ai/inputReaderl.py:38-44 | one square's visit adds twice the square's signed piece count to the total |
| Features.LoopComputesFeatureVector | ai/inputReaderl.py:22-45 | the loop's list at the end is the vector defined entry by entry |
| Features.FeatureSum | ai/inputReaderl.py:38-44 | the entries add up to twice the difference between the numbers of white and black pieces |
| Features.VisitSquare | ai/inputReaderl.py:26-44 | one square's work, done through the piece's text, performs exactly the visit defined on piece kinds. Both indices it writes lie in 0..188 |
| Features.NeuralNetInput | ai/inputReaderl.py:20-45 | the list returned is `FeatureVector(board)`, of length 189, and its entries add up to twice the difference between the numbers of white and black pieces |
| FeatureProperties.CountEntriesHoldNetCounts | ai/inputReaderl.py:38-44 | when no pawn stands on its far rank, entries 184..188 hold the net counts of king, queen, rook, bishop and knight |
| FeatureProperties.PawnSharesCountEntry | ai/inputReaderl.py:39-44 | a lone white pawn on d7 puts 2 into entry 183, the pawn-count entry, while the net pawn count is 1 |
| FeatureProperties.MirrorFiles | ai/inputReaderl.py:35-37 | the mirrored board holds on (file, rank) what the board holds on (7 - file, rank) |
| FeatureProperties.MirrorInvariant | ai/inputReaderl.py:35-37 | mirroring the board left to right leaves the input vector unchanged |
| FeatureProperties.SwapColours | ai/inputReaderl.py:28-34 | the swapped board holds on (file, rank) the recoloured piece from (file, 7 - rank), with the other side to move |
| FeatureProperties.SwapNegates | ai/inputReaderl.py:28-34 | swapping the colours and flipping the ranks negates every entry |
| FeatureProperties.TurnIgnored | ai/inputReaderl.py:23 | the vector does not depend on the side to move: `current_player` is read and never used |

## Left out

- The pybind11 module and its `Board` bindings are not modelled (src/minimax.cpp:128-147). The only part modelled is the `""` rule for the null move, and the move's UCI text is a parameter `encode` of `Report`.
- libchess's `Move` is reduced to its origin and destination squares. Its type and piece fields are not modelled because the board never reads them. The null move `Move()` is `None`.
- Minimax: `depth` must be non-negative. With a negative depth the source never reaches depth 0. Such a call returns only through table hits, for instance when the board's key is already stored by an earlier call (the table lives across calls). Otherwise it recurses until the stack overflows.
- Minimax: the two `for` loops are modelled as the methods `MaxChildren` and `MinChildren`, called where the loops stand.
- Minimax: `int` is modelled as a 32-bit range, `Int32`. No arithmetic in the search can overflow: scores are popcounts, and alpha and beta only take scores or their start values.
- Stack depth, memory and the `unordered_map`'s hashing are not modelled.
- SearchModel.RootSearchIsMinimax: stated only for searches in which no lookup hits. The table's entries carry neither depth nor window, so a hit can return a pair computed with another window or depth. The model makes no claim about the hit case beyond "the stored pair is returned".
- Features.NeuralNetInput: the local list `inputs` is modelled as a sequence value that each `+=` replaces. The body of the inner loop is the method `VisitSquare`.
- python-chess is not modelled. `board.piece_at` becomes the board's `placement`, and `str(piece)` is the symbol, or "None" for an empty square. `chess.SQUARES[chess.square(i, j)]` is the index `8 * j + i`.
- `main()`, `load_checkpoint()`, the PGN reading and the network itself (ai/inputReaderl.py:48-117) are not modelled, nor is the rest of the repository.
