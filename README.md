# A verified model of the Chess-JavaProject rules engine

This project models the logic of a two-player chess program written in Java and proves
what that logic does. It covers four parts.

- **The board.** `chess/board/Board.java` is an 8x8 grid of optional pieces. Its
  operations are:
  - bounds-checked reading, adding and removing of pieces;
  - a deep copy;
  - a search for the king;
  - `movePiece`, which relocates a piece, advances the en-passant counters of the pawns,
    and applies the side effects of castling and of capture in passing.
- **The move generators.** These are the classes under `chess/pieces`. With `nextMove`
  set, every generator plays each candidate on a clone of the board and drops it when the
  mover's king would then be in danger.
- **The rules.** `chess/rules/Rules.java` provides `kingInDanger`, `trappedKing` and
  `coronation`.
- **The game controller.** This is the window-free part of `chess/UI/GameOperation.java`:
  - selection of a piece and confirmation of a move;
  - hand-over of the turn;
  - reports of checkmate and stalemate;
  - promotion;
  - a move history with undo (`backClicked`) and redo (`nextClicked`), both done by
    replay from the starting position.

The model follows the code, including the places where the code departs from the Laws of
Chess of FIDE:

- castling looks only at the two squares next to the king;
- a capture square rejected by the safety filter does not end a rook's or bishop's ray;
- `Pawn.clone` drops `movesSinceDB`;
- `getKing` falls back to the content of cell (7, 7);
- capture in passing does not check the colour of the captured pawn;
- the rook moved by castling is not marked as moved.

## Layout

- `pieces.dfy` (module `Pieces`): the piece as a value, with one `kind` tag for the six
  Java subclasses and their base class. Every virtual getter and setter is a function that
  dispatches on the tag.
- `board.dfy` (module `Boards`) and `board_facts.dfy` (module `BoardFacts`): the board as
  a value, a sequence of 64 cells in the row-major order of the source's loops. These
  modules give the functions of every operation of `Board.java`, together with what is
  proved about them.
- `board_state.dfy` (module `BoardState`): class `Board`. It holds the `array2` that the
  source updates in place, and each method is proved equal to its function in `Boards`.
- `rules.dfy` (module `Rules`): the generators and the three rules as functions over board
  values.
  - A generator receives the safety filter as a predicate `ok` on the destination square.
  - `ValidMoves`, `MoveFilter`, `Safe` and `KingInDanger` are mutually recursive, exactly
    as in the source. The recursion is bounded by `Rank(nextMove)`, because `kingInDanger`
    only ever asks for unfiltered moves.
- `rules_facts.dfy`, `castling_facts.dfy` and `rules_theorems.dfy`: what each generator
  offers, stated against independent definitions and proved. Examples are the L-shaped
  jumps, the neighbours of the king, sliding along a line, and the pawn's step, double
  step and capture. They also prove distinctness and bounds of the move lists, the safety
  of every filtered move, and characterisations of the three rules.
- `engine.dfy` (module `Engine`) and `engine_steps.dfy`: the generators and rules as the
  loops they are, run on class `Board`. Each loop is proved to compute its function in
  `Rules`, and none of them changes the board it is given.
- `game.dfy` (module `Game`): class `GameOperation` with the fields of the source. Its
  invariant is that the board shows the starting position with the first `movesLen` moves
  of the history replayed on it, and that the side to move is White exactly after an even
  number of moves.

## Model

| member | source | states |
|---|---|---|
| Pieces.Opposite | chess/UI/GameOperation.java:71 | the turn hand-over always gives the other colour |
| Pieces.HasBeenMoved | chess/pieces/Piece.java:33-35 | every kind without its own override, the king included, reports moved |
| Pieces.SetHasBeenMoved | chess/pieces/Pawn.java:32-35 | only sets the flag, and only for pawns, kings and rooks; every other field is kept |
| Pieces.DoubleBox | chess/pieces/Piece.java:41-43 | only a pawn can report a double step |
| Pieces.SetDoubleBox | chess/pieces/Pawn.java:43-46 | sets the pawn's flag, a no-op for other kinds; nothing else changes |
| Pieces.MovesSinceDB | chess/pieces/Piece.java:49-51 | 0 for every kind but the pawn |
| Pieces.AddMoveSinceDB | chess/pieces/Pawn.java:55-59 | the counter grows by one exactly when the pawn has double-stepped |
| Pieces.SetPosition | chess/pieces/Piece.java:70-75 | the square changes to the target when it is on the board; otherwise the piece is unchanged |
| Pieces.Clone | chess/pieces/Pawn.java:61-64 | the copy keeps kind, colour, square and flags; the pawn's ply counter restarts at 0 |
| Pieces.CloneOfWellFormed | chess/pieces/Pawn.java:15-19 | clone loses only movesSinceDB, and is the identity exactly when that is 0 |
| Pieces.Make | chess/pieces/Piece.java:9-13 | a constructed piece has the given kind and colour, and stands on the given square when it is on the board, else on (0, 0) |
| Pieces.Initial | chess/pieces/King.java:9-11 | a two-argument constructor builds an unmoved, well-formed piece |
| Pieces.HomeSquares | chess/pieces/Pawn.java:11-13 | white pawns start on y = 1 and black ones on y = 6; every other kind, the queen included, starts on y = 0 or y = 7 |
| Pieces.InitialValue | chess/pieces/Rook.java:9-11 | a two-argument constructor on a column of the board builds the unmoved piece of that column on its home rank |
| Pieces.Forward | chess/pieces/Pawn.java:89 | a pawn walks +1 for white and -1 for black |
| Boards.Idx | chess/board/Board.java:86-89 | a square on the board has one of the 64 cell indices |
| Boards.IdxOfXY | chess/board/Board.java:13-15 | the row-major index and the coordinates are inverse |
| Boards.AddPiece | chess/board/Board.java:40-43 | the piece replaces any occupant of its own cell; no other cell changes |
| Boards.RemovePiece | chess/board/Board.java:54-57 | the piece's cell is emptied; no other cell changes |
| Boards.KingScanFinds | chess/board/Board.java:60-73 | the scan answers the first king of the colour, or the content of (7, 7) when there is none |
| Boards.SweepPawns | chess/board/Board.java:110-119 | every pawn that has double-stepped counts one more ply; every other cell is unchanged |
| Boards.MarkMoved | chess/board/Board.java:133 | setHasBeenMoved on the piece at the square; no other cell changes |
| Boards.MarkDoubleStep | chess/board/Board.java:155 | setDoubleBox on the piece at the square; no other cell changes |
| BoardFacts.GetAfterAdd | chess/board/Board.java:40-51 | getPiece reads back what addPiece stored, and every other square as before |
| BoardFacts.GetAfterRemove | chess/board/Board.java:46-57 | getPiece finds nothing where removePiece emptied, and every other square as before |
| BoardFacts.AddRemoveKeepConsistent | chess/board/Board.java:40-57 | adding a well-formed piece and removing any piece keep each piece on the cell its coordinates name |
| BoardFacts.GetKingFirst | chess/board/Board.java:60-73 | getKing gives the first king of the colour in row-major order, else the content of (7, 7) |
| BoardFacts.GetKingIsKing | chess/board/Board.java:60-73 | getKing answers a king of the colour exactly when the board holds one |
| BoardFacts.CloneBoardContents | chess/board/Board.java:76-83 | the copy has a piece wherever the original has one, with the same square, colour and flags; only pawn counters reset; clone of a clone is the clone |
| BoardFacts.CloneBoardIdentity | chess/board/Board.java:76-83 | the copy equals the original exactly when no pawn is counting plies |
| BoardFacts.CastlingEffect | chess/board/Board.java:130-145 | the king is marked moved; after a jump, the edge piece of the old rank moves next to the king's target and nothing else changes |
| BoardFacts.EnPassantEffect | chess/board/Board.java:150-168 | the pawn is marked moved; a two-rank step sets doubleBox; a diagonal step removes the piece beside it exactly when that is a pawn one ply after its double step |
| BoardFacts.SweptCells | chess/board/Board.java:106-119 | after relocating and sweeping, the old square is empty, the new one holds the swept piece, every other cell is swept in place, and every piece still sits on its own cell |
| BoardFacts.IgnoredMoveIsNoOp | chess/board/Board.java:97-105 | movePiece changes nothing when a square is off the board, the squares coincide or the source is empty |
| BoardFacts.MoveEmptiesSource | chess/board/Board.java:94-108 | an accepted move empties the source square, so movePiece changes the board exactly when it accepts |
| BoardFacts.MoveTarget | chess/board/Board.java:106-125 | the target holds the mover with its new square, its sweep, its moved flag and, after a two-rank pawn move, doubleBox; the occupant is gone. Two requests no generator makes are excepted; the next two rows state what happens to them |
| BoardFacts.KingJumpOntoEdge | chess/board/Board.java:130-144 | a king that jumps along its rank onto column 0 or 7 is taken by checkCastling for the rook: it ends, marked moved, next to that square, and the target is empty |
| BoardFacts.PawnSidestepRemovesItself | chess/board/Board.java:150-167 | a pawn that double-stepped on the last ply and moves sideways along its rank is taken by checkEatenByPass for the captured pawn: source and target both end empty |
| BoardFacts.MoveOtherCells | chess/board/Board.java:106-125 | every cell other than source, target and the side-effect cells keeps its piece, changed only by the pawn sweep |
| BoardFacts.MoveCastlesRook | chess/board/Board.java:120-121 | a king's jump moves the edge piece of its old rank next to the king's target, whatever that piece is, and does not mark it moved |
| BoardFacts.MoveCapturesInPassing | chess/board/Board.java:122-123 | a pawn's diagonal step removes the piece beside its target exactly when that is a pawn of either colour that double-stepped on the ply before |
| BoardFacts.MoveKeepsConsistent | chess/board/Board.java:94-126 | movePiece keeps every piece well formed and on the cell its coordinates name |
| BoardFacts.HomePieceFacts | chess/board/Board.java:19-37 | the starting position: white on ranks 0-1, black on ranks 6-7, nothing moved, the kings on column 4 |
| BoardFacts.HomeIsInitial | chess/board/Board.java:23-36 | the piece of each filled square is the one the source's constructor call builds |
| BoardFacts.DefaultBoardFacts | chess/board/Board.java:19-37 | the starting position is consistent, with the right colours and no moved piece |
| BoardFacts.DefaultKings | chess/board/Board.java:60-73 | getKing finds each starting king on column 4 of its home rank |
| BoardState.Board.constructor | chess/board/Board.java:6 | a new board is empty |
| BoardState.Board.SetCell | chess/board/Board.java:42 | one array assignment changes one cell |
| BoardState.Board.Clear | chess/board/Board.java:11-16 | both loops empty every square |
| BoardState.Board.AddPiece | chess/board/Board.java:40-43 | the array becomes Boards.AddPiece of the old board |
| BoardState.Board.GetPiece | chess/board/Board.java:46-51 | reads Boards.GetPiece of the board |
| BoardState.Board.RemovePiece | chess/board/Board.java:54-57 | the array becomes Boards.RemovePiece of the old board |
| BoardState.Board.GetKing | chess/board/Board.java:60-73 | the nested loop with early return computes Boards.GetKing |
| BoardState.Board.CloneBoard | chess/board/Board.java:76-83 | a fresh board holding Boards.CloneBoard of this one, which is untouched |
| BoardState.Board.MarkMoved | chess/board/Board.java:133 | the array becomes Boards.MarkMoved of the old board |
| BoardState.Board.MarkDoubleStep | chess/board/Board.java:155 | the array becomes Boards.MarkDoubleStep of the old board |
| BoardState.Board.SweepPawns | chess/board/Board.java:110-119 | the sweep loop computes Boards.SweepPawns |
| BoardState.Board.CheckCastling | chess/board/Board.java:130-145 | the array becomes Boards.CheckCastling of the old board |
| BoardState.Board.CheckEatenByPass | chess/board/Board.java:150-168 | the array becomes Boards.CheckEatenByPass of the old board |
| BoardState.Board.MovePiece | chess/board/Board.java:94-126 | the array becomes Boards.MovePiece of the old board |
| BoardState.Board.PlaceColour | chess/board/Board.java:23-32 | one pass of the colour loop adds the eight pawns and six back-rank pieces of that colour |
| BoardState.Board.SetDefaultBoard | chess/board/Board.java:19-37 | the board becomes Boards.DefaultBoard, the starting position |
| BoardState.PawnStage | chess/board/Board.java:24-25 | each pawn added by the loop fills the next pawn square of the position |
| BoardState.BackStage | chess/board/Board.java:26-31 | each back-rank piece added fills the next back-rank square |
| BoardState.RoyalStage | chess/board/Board.java:33-36 | the queens and kings added after the loop complete the position |
| BoardState.FullStage | chess/board/Board.java:19-37 | every piece added gives exactly the starting position |
| RulesFacts.KnightOffsets | chess/pieces/Knight.java:33-34 | the eight offset pairs are exactly the eight L-shaped jumps, all different |
| RulesFacts.KnightScanStep | chess/pieces/Knight.java:35-51 | one offset adds its target exactly when that is on the board, not own-held and accepted |
| RulesFacts.KnightScanMembers | chess/pieces/Knight.java:35-51 | the loop from offset i offers exactly the acceptable targets of offsets i .. 7 |
| RulesFacts.KnightMovesExact | chess/pieces/Knight.java:27-53 | the knight's moves are exactly the L-jumps on the board, onto no own piece, accepted by the filter; no square twice, at most 8 |
| RulesFacts.KnightScanDistinct | chess/pieces/Knight.java:35-51 | the offset loop from offset i never offers a square twice, and offers at most 8 - i |
| RulesFacts.KingColumnMembers | chess/pieces/King.java:69-85 | one column of traditionalMove offers exactly its accepted neighbours |
| RulesFacts.KingStepsMembers | chess/pieces/King.java:68-86 | the columns from dx on offer exactly the accepted neighbours in those columns |
| RulesFacts.KingStepsDistinct | chess/pieces/King.java:68-86 | traditionalMove lists no square twice, at most 8 |
| RulesFacts.KingStepsExact | chess/pieces/King.java:62-88 | the ordinary king moves are exactly the neighbours on the board, never its own square, onto no own piece, accepted by the filter |
| RulesFacts.RayShape | chess/pieces/Bishop.java:51-55 | a ray offers squares of its own line only, 1 to 7 steps away, each once |
| RulesFacts.RayOffers | chess/pieces/Bishop.java:54-69 | every square a ray offers is on the board, holds no own piece and is accepted by the filter |
| RulesFacts.RayOffersAt | chess/pieces/Bishop.java:51-72 | step i is offered exactly when it is a legal, accepted landing and every step before it passes, where an accepted capture ends the ray and a rejected one does not |
| RulesFacts.RayOffersExactly | chess/pieces/Bishop.java:51-72 | the ray from step 1 offers step i exactly when OfferedAt says so |
| RulesFacts.RayUnfiltered | chess/pieces/Bishop.java:57-61 | without the filter the ray offers exactly the squares reached by sliding over empty squares onto an empty or opposing one |
| RulesFacts.RookMovesOffer | chess/pieces/Rook.java:45-86 | every rook move lies on its rank or file, is on the board, holds no own piece and is accepted |
| RulesFacts.RookMovesDistinct | chess/pieces/Rook.java:45-52 | getRookMoves lists no square twice |
| RulesFacts.RookMovesUnfiltered | chess/pieces/Rook.java:62-83 | without the filter the rook reaches exactly what slides along its rank or file |
| RulesFacts.BishopMovesOffer | chess/pieces/Bishop.java:32-43 | every bishop move lies on a diagonal, is on the board, holds no own piece and is accepted |
| RulesFacts.BishopMovesDistinct | chess/pieces/Bishop.java:32-43 | getBishopMoves lists no square twice |
| RulesFacts.BishopMovesUnfiltered | chess/pieces/Bishop.java:45-74 | without the filter the bishop reaches exactly what slides along its diagonals |
| RulesFacts.QueenMovesOffer | chess/pieces/Queen.java:28-35 | every queen move lies on its rank, file or a diagonal and is legal and accepted; a square is a queen move exactly when it is a rook move or a bishop move from the queen's square |
| RulesFacts.QueenMovesDistinct | chess/pieces/Queen.java:28-35 | the queen lists no square twice |
| RulesFacts.FrontMoveOne | chess/pieces/Pawn.java:83-108 | the single step is offered exactly when the square ahead is on the board, empty and accepted |
| RulesFacts.FrontMoveTwo | chess/pieces/Pawn.java:89-99 | the double step is offered exactly for an unmoved pawn over an empty square onto an empty, accepted one |
| RulesFacts.DiagonalMoveExact | chess/pieces/Pawn.java:112-148 | a diagonal is offered exactly for an opposing piece there, or an empty square beside an opposing pawn right after its double step |
| RulesFacts.PawnMovesExact | chess/pieces/Pawn.java:66-79 | the pawn's moves are exactly its step, double step and captures |
| RulesFacts.PawnMovesDistinct | chess/pieces/Pawn.java:66-79 | at most four moves, none twice |
| RulesFacts.PawnMovesOffer | chess/pieces/Pawn.java:90-146 | every pawn move is on the board, on no own piece and accepted |
| CastlingFacts.FreeWayFrame | chess/pieces/King.java:106-123 | for one and the same filter, the occupancy test of freeWayCastling reads only the two squares next to the king toward the rook: boards that agree there get the same answer. The safety filter of King.java:115-119 plays the king on a clone of the whole board, so two boards given their own filters are not covered |
| CastlingFacts.FreeWayIgnoresOtherSquares | chess/pieces/King.java:111-121 | for one and the same filter, a piece placed anywhere else, between those squares and the rook included, changes neither the occupancy test of freeWayCastling nor castlingMove; with the filter of the new board it can change the safety answer |
| RulesTheorems.UnfilteredFreeWayFrame | chess/pieces/King.java:106-123 | without nextMove, where each board brings its own filter, freeWayCastling and castlingMove give the same answer on any two boards that agree on the two squares next to the king toward the rook |
| CastlingFacts.CastlingMoveExact | chess/pieces/King.java:90-101 | castlingMove offers at most the one square two steps toward an unmoved rook, when the way is free |
| CastlingFacts.CastlingScanMembers | chess/pieces/King.java:48-58 | the rook scan offers exactly the castlings of the king's rooks |
| RulesTheorems.CastlesFromUnfiltered | chess/pieces/King.java:45-47 | without nextMove a castling does not depend on the filter |
| CastlingFacts.CastlesFromShape | chess/pieces/King.java:98-99 | a castling lands two squares along the king's rank, over a free, accepted way |
| CastlingFacts.KingMovesExact | chess/pieces/King.java:36-60 | the king's moves are its accepted neighbours plus, for an unmoved king not in danger, the castlings |
| CastlingFacts.KingMovesOffer | chess/pieces/King.java:36-60 | every king move is accepted and lands on no own piece |
| RulesTheorems.ValidMovesSafe | chess/pieces/Knight.java:44-49 | with nextMove no move of any kind lands on an own piece, and none leaves the mover's king in danger after movePiece on a clone; the same check is Pawn.java:100-105 and 139-146, King.java:78-84, Rook.java:74-79 and Bishop.java:63-68 |
| RulesTheorems.UnfilteredAcceptsAll | chess/pieces/Bishop.java:63 | without nextMove the filter accepts every square |
| RulesTheorems.UnfilteredMovesReach | chess/rules/Rules.java:22 | getValidMoves without nextMove offers exactly the squares each kind reaches by its geometry; the base class reaches none |
| RulesTheorems.AttackScanExact | chess/rules/Rules.java:15-29 | the scan finds an opposing piece whose unfiltered moves include the target |
| RulesTheorems.KingInDangerExact | chess/rules/Rules.java:10-30 | kingInDanger holds exactly when the square of getKing is reached by some piece of the other colour; false when getKing finds nothing |
| RulesTheorems.TrappedScanExact | chess/rules/Rules.java:37-48 | the scan from cell k finds no piece of the colour with a filtered move on cells k .. 63 |
| RulesTheorems.TrappedKingExact | chess/rules/Rules.java:34-49 | trappedKing holds exactly when no piece of the colour has a filtered move, vacuously with no pieces |
| RulesTheorems.CoronationScanExact | chess/rules/Rules.java:55-67 | the scan from cell k answers the first pawn on rank 0 or 7 from k on |
| RulesTheorems.CoronationExact | chess/rules/Rules.java:52-68 | coronation answers the first pawn of either colour on rank 0 or 7 in row-major order, and nothing when there is none |
| Engine.IsSafe | chess/pieces/Knight.java:44-49 | clone, movePiece on the clone, kingInDanger there: computes the filter |
| Engine.FrontMove | chess/pieces/Pawn.java:83-108 | computes Rules.FrontMove |
| Engine.DiagonalMove | chess/pieces/Pawn.java:112-148 | computes Rules.DiagonalMove |
| Engine.PawnMoves | chess/pieces/Pawn.java:66-79 | the two loops compute Rules.PawnMoves |
| Engine.KnightOffset | chess/pieces/Knight.java:36-50 | one pass of the offset loop |
| Engine.KnightMoves | chess/pieces/Knight.java:27-53 | the offset loop computes Rules.KnightMoves |
| Engine.Project | chess/pieces/Bishop.java:52-53 | x + i * dx for a unit step |
| Engine.RayStep | chess/pieces/Bishop.java:52-71 | one pass of the ray loop: the square it adds, the new pieceEaten, and whether it breaks |
| Engine.RayWalk | chess/pieces/Bishop.java:51-72 | one pass of the ray loop in terms of the rest of the ray |
| Engine.DiagonalMoves | chess/pieces/Bishop.java:45-74 | the ray loop with break and continue computes Rules.Ray |
| Engine.StraightMoves | chess/pieces/Rook.java:54-86 | computes Rules.StraightMoves |
| Engine.RookMoves | chess/pieces/Rook.java:45-52 | computes Rules.RookMoves |
| Engine.BishopMoves | chess/pieces/Bishop.java:32-43 | computes Rules.BishopMoves |
| Engine.QueenMoves | chess/pieces/Queen.java:28-35 | computes Rules.QueenMoves |
| Engine.KingStep | chess/pieces/King.java:70-84 | one pass of the inner loop of traditionalMove |
| Engine.KingWalk | chess/pieces/King.java:69-85 | one pass of the inner loop in terms of the rest of the column |
| Engine.KingColumnMoves | chess/pieces/King.java:69-85 | the inner loop computes Rules.KingColumn |
| Engine.TraditionalMove | chess/pieces/King.java:62-88 | the nested loops compute Rules.KingSteps |
| Engine.WayFree | chess/pieces/King.java:113-120 | one pass of the loop of freeWayCastling |
| Engine.FreeWayCastling | chess/pieces/King.java:106-123 | computes Rules.FreeWayCastling |
| Engine.CastlingMove | chess/pieces/King.java:90-101 | computes Rules.CastlingMove |
| Engine.CastlingCell | chess/pieces/King.java:50-56 | one cell of the rook scan |
| Engine.CastlingRow | chess/pieces/King.java:49-57 | the inner loop of the rook scan over one row |
| Engine.CastlingScan | chess/pieces/King.java:48-58 | the rook scan computes Rules.CastlingScan |
| Engine.KingMoves | chess/pieces/King.java:36-60 | computes Rules.KingMoves |
| Engine.ValidMoves | chess/pieces/Piece.java:60-62 | getValidMoves by kind computes Rules.ValidMoves |
| Engine.Contains | chess/rules/Rules.java:23-26 | the loop over a move list finds the target exactly when it is in the list |
| Engine.Attacks | chess/rules/Rules.java:17-26 | one cell of the scan of kingInDanger |
| Engine.AttacksFromRow | chess/rules/Rules.java:16-27 | the inner loop of kingInDanger over one row |
| Engine.KingInDanger | chess/rules/Rules.java:10-30 | computes Rules.KingInDanger |
| Engine.Movable | chess/rules/Rules.java:39-45 | one cell of the scan of trappedKing |
| Engine.MovableInRow | chess/rules/Rules.java:38-46 | the inner loop of trappedKing over one row |
| Engine.TrappedKing | chess/rules/Rules.java:34-49 | computes Rules.TrappedKing |
| Engine.Coronation | chess/rules/Rules.java:52-68 | computes Rules.Coronation |
| Game.Promoted | chess/UI/GameOperation.java:112-124 | the chosen piece stands on the pawn's square in its colour and is a knight, rook, bishop or queen, a queen exactly for any answer but 1, 2, 3; it counts as moved (the rook is created moved) |
| Game.Answers | chess/UI/GameOperation.java:102-111 | the answers of the first n dialogs of a replay |
| Game.GameOperation.constructor | chess/UI/GameOperation.java:22-24 | a new game shows the starting position with White to move and an empty history |
| Game.GameOperation.InitializeGame | chess/UI/GameOperation.java:27-35 | the starting position, no valid moves, White to move, an empty history with movesLen 0 |
| Game.GameOperation.CorrectMove | chess/UI/GameOperation.java:61-66 | the square is among the valid moves |
| Game.GameOperation.UpdateMoveHistory | chess/UI/GameOperation.java:128-133 | the history is cut to its first movesLen moves and the new move appended, so movesLen is its length |
| Game.GameOperation.MakeMove | chess/UI/GameOperation.java:68-83 | the turn flips, the board becomes movePiece then promotion, and the report is checkmate, stalemate or nothing for the side to move |
| Game.GameOperation.Coronation | chess/UI/GameOperation.java:99-126 | the chosen piece is added on the pawn's square |
| Game.GameOperation.Advance | chess/UI/GameOperation.java:51-54 | records and plays the move, keeping the history invariant |
| Game.GameOperation.SquareClicked | chess/UI/GameOperation.java:38-59 | an own piece selects its filtered moves; another square is played exactly when it is a valid move, and clears them; a played move is recorded and reports the checkmate, stalemate or nothing of makeMove; every move played is a valid move of the selected piece |
| Game.GameOperation.Redo | chess/UI/GameOperation.java:170-174 | one pass of the replay: the next history entry is played and the history invariant moves one step on |
| Game.GameOperation.ReplayHistory | chess/UI/GameOperation.java:170-174 | the replay loop shows the first movesLen moves of the history |
| Game.GameOperation.BackClicked | chess/UI/GameOperation.java:159-176 | nothing without a move to undo; otherwise movesLen drops by one, the history is kept and the board shows its prefix; either way the selection invariant is kept |
| Game.GameOperation.NextClicked | chess/UI/GameOperation.java:179-187 | nothing at the end of the history; otherwise the next move is played and counted; either way the selection invariant is kept |
| Game.ReplayStep | chess/UI/GameOperation.java:170-174 | replaying one more move plays it on the shorter replay |
| Game.ReplayNext | chess/UI/GameOperation.java:182-184 | replaying the history one entry further plays that entry on the shorter replay |
| Game.TurnAlternates | chess/UI/GameOperation.java:71 | the side to move alternates with every move |
| Game.PlayKeepsConsistent | chess/UI/GameOperation.java:68-83 | makeMove keeps the board consistent |
| Game.ReplayConsistent | chess/UI/GameOperation.java:166-174 | every board the history can show is consistent |
| Game.UndoThenRedo | chess/UI/GameOperation.java:159-187 | backClicked then nextClicked, with the undone move answered as before, restores the board, the history, movesLen and the side to move |
| Game.RedoThenUndo | chess/UI/GameOperation.java:159-187 | nextClicked then backClicked restores the board, the history, movesLen and the side to move |
| Game.PromotionReplacesPawn | chess/UI/GameOperation.java:80-82 | the pawn coronation finds is replaced by the promoted piece and no other square changes |
| Game.OutcomeExact | chess/UI/GameOperation.java:74-79 | checkmate exactly when no piece can move and the king is attacked, stalemate when none can move and it is not |

## Left out

- `chess/UI/UI.java` is not part of this model. It is the window, its buttons and images.
- The dialogs of `GameOperation.java` (`tiedGame`, `checkmate`, the dialog half of
  `coronation`) are left out. Their content is returned as an `Outcome` value. The player's
  answer to the promotion dialog is a parameter.
- `setBoardColors`, `setImagesUI`, `invert`, `invertClicked` and the `invertBoard`,
  `lastMove` and `firstMove` fields are left out, because they only affect what is
  painted. `SquareClicked` takes board coordinates, that is, after `invert`.
- `restartClicked` is `initializeGame` followed by painting, so it is modelled by
  `InitializeGame`.
- Game.GameOperation.BackClicked: does not report a checkmate or stalemate dialog that
  the replay raises again. The promotion answers of a replay are a parameter, and an
  answer not given counts as a closed dialog, which means a queen.
- There is no "game over" state, as in the source: clicks are still accepted after
  checkmate.
- Java object identity and aliasing are not modelled. A piece is a value owned by one
  cell, and a piece's coordinates naming its cell is an invariant that is proved to be
  preserved.
- The `Piece` constructor's guard against a colour other than white or black is left out,
  because `Color` has only those two values.
- Pieces.Make: does not model the byte fields of `Piece`. Coordinates are kept only after
  the bounds check, so the `(byte)` casts never truncate.
- When neither a king of the colour nor any piece on (7, 7) exists, `kingInDanger`
  dereferences null. The model answers false there.
- `checkCastling` and `checkEatenByPass` dereference the piece on the target square. It is
  always present after the move, so that null case does not arise and is not modelled.
- Engine.DiagonalMoves: the ray loop's `break` is written as a stop flag that `RayStep`
  returns and the loop condition tests; its `continue` is the end of the pass. The other
  loops keep their early `return` as in the source (for example `BoardState.Board.GetKing`,
  `Game.GameOperation.CorrectMove`, `Engine.FreeWayCastling`, `Engine.KingInDanger`).
  Several loop bodies are split into helper methods (for example `Redo`, `RayWalk`,
  `KingWalk`); these are the same loops with the same order of effects.
- Game.GameOperation.SquareClicked: requires the selection invariant `Selection` (that
  `validMoves` is either empty or the filtered moves of the last square clicked) in order
  to state that every move played was valid. The constructor and `InitializeGame`
  establish it, and `SquareClicked`, `BackClicked` and `NextClicked` preserve it, so it
  holds between clicks. `MakeMove`, `Advance` and `Redo` do not keep it; the public
  methods that call them empty `validMoves` afterwards.
