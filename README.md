# Chess engine core of Ajedrez3D-WebGL, modelled in Dafny

This project models the chess engine behind the Ajedrez3D-WebGL browser game:

- the pieces and moves;
- the 8x8 board and its starting layout;
- the pseudo-legal move generators and the attack test;
- the game state, with make, undo and the legal-move filter;
- the static evaluator with its move ordering;
- the alpha-beta search that chooses the computer's move.

The WebGL renderer, camera, materials and `main.js` are not part of this model.

The model has two layers.

**Value layer** (`*_spec.dfy`, `*_facts.dfy`). A board is a `Grid`: a map from occupied squares to piece values. A move is a `MoveVal`. This layer states what each operation of the source computes, as pure functions: move generation, `makeMove` and `undoMove`, the evaluator and the game tree that `minimax` walks. It also proves the properties of those functions: undo after make, zero-sum evaluation, a stable sort, and alpha-beta against plain minimax.

**Object layer.** These files keep the source's own form:
- `pieces.dfy`, `moves.dfy`, `boards.dfy`, `helpers.dfy`;
- `rules.dfy`, `game_state.dfy`, `evaluation.dfy`, `minimax.dfy`.

`Piece`, `Move`, `Board`, `GameState` and `MinimaxAI` are classes whose methods update fields in place. The board is an `array2<Piece?>`, and move lists are sequences of `Move` objects. Every loop of the source is a loop with invariants (`for` or `while`); `indexOf` and the comparator sort are recursive functions. Each method is proved to compute its value-layer function: the ghost function `Abs` reads an array of pieces as a `Grid`, and `View`/`Views` read moves as `MoveVal`s.

Decisions worth knowing:
- Rows are numbered from Black's back rank: row 0 holds Black, row 7 holds White, and White pawns move towards row 0.
- `PieceType`, `Color`, `PieceValue` and `PositionTables` are defined in `js/utils/constants.js`, which is not part of this model. The types and sides become enumerations. The numeric tables become the parameter `Weights`. The first characters of the type and side names, which `getPositionKey` writes, become the parameter `Initials`.
- `-Infinity` and `Infinity`, which `minimax` returns for a mated side, are the constructors of the datatype `Score` (`NegInf | Fin(n) | PosInf`).
- Points where the code's behaviour is worth knowing:
  - A failed castling (empty corner) leaves the capture bookkeeping done before the check in place. The moves the generators build never capture when castling, so the board is untouched.
  - The repetition table is degenerate (see `MinimaxSearch.MinimaxAI.BuildPositionHistory`).
  - The castling test does not check the colour of the corner rook (`RuleFacts.CastlingComplete`).
  - En passant is never generated.
  - Undoing a capturing promotion loses the capture in the source. The object layer models the undo as written; the corrected undo is defined and proved in the value layer only (see Findings).

## Model

| member | source | states |
|---|---|---|
| Types.Opponent | js/game/rules.js:269 | the enemy colour is the other side |
| Pieces.Piece.constructor | js/game/Piece.js:2-8 | a new piece has the given type, side and square and has not moved |
| Pieces.Piece.Clone | js/game/Piece.js:10-14 | the copy is a fresh object equal to the original in every field, `hasMoved` included |
| Pieces.Piece.GetSymbol | js/game/Piece.js:16-28 | a white piece shows its type's glyph; a black piece shows that glyph passed through `toLowerCase` |
| Pieces.GlyphInjective | js/game/Piece.js:17-24 | different types have different glyphs |
| Helpers.NatString | js/utils/helpers.js:11-12 | the decimal text of a rank number is non-empty, and a single digit for 0..9 |
| Helpers.NotationToIndices | js/utils/helpers.js:2-6 | a result exactly when the text has a second character that is a digit; row is 8 minus that digit, column is the letter's offset from 'a' |
| Helpers.IndicesToNotation | js/utils/helpers.js:9-13 | the column letter first; on the board, exactly the letter and the rank digit `8 - row` |
| Helpers.IndicesRoundTrip | js/utils/helpers.js:2-13 | decoding the notation of a board square gives the square back |
| Helpers.NotationRoundTrip | js/utils/helpers.js:2-13 | a square name 'a'..'h', '1'..'8' decodes to a board square whose notation is the same name |
| Helpers.CloneBoard | js/utils/helpers.js:21-38 | a fresh array of fresh pieces, empty where the original is empty; each copy has the original's type, side and `hasMoved` and the square it stands on (`Restamp`) |
| Grids.Restamp | js/utils/helpers.js:26-35 | the copied board has the same squares; each piece keeps its type, side and `hasMoved` and records the square it stands on |
| Grids.RestampWellPlaced | js/utils/helpers.js:26-35 | a copied board has every piece recording its own square, and copying such a board changes nothing |
| Lists.IndexOf | js/game/GameState.js:181 | -1 exactly when the element is absent; otherwise its first position |
| Lists.RemoveFirst | js/game/GameState.js:181-182 | removes the first occurrence: the list is spliced at the first index holding the element (one fewer as multisets); a list without the element is unchanged |
| Lists.RemoveFirstLast | js/game/GameState.js:175-183 | pushing an absent element and then removing it gives the list back |
| Moves.Move.constructor | js/game/Move.js:2-27 | the fields as given, `prevHasMoved` from the piece, no rook, no rook columns and no promoted piece |
| Moves.Move.ToString | js/game/Move.js:29-34 | for squares on the board, the two square names joined by '-' |
| Moves.EqualsIsEquivalence | js/game/Move.js:36-43 | `equals` (same four coordinates) is reflexive, symmetric and transitive |
| Boards.InitialPawnsAndEmptyMiddle | js/game/Board.js:12-15 | pawns fill rows 1 (Black) and 6 (White), unmoved; rows 2 to 5 are empty |
| Boards.InitialKingsAndSides | js/game/Board.js:18-41 | the only kings are Black's on (0,4) and White's on (7,4); White holds exactly rows 6-7 and Black exactly rows 0-1 |
| Boards.InitialGridAt | js/game/Board.js:6-44 | the starting position has a piece exactly where the layout puts one, and that piece |
| Boards.InitialWellPlaced | js/game/Board.js:6-44 | every starting piece records its own square, lies on the board and has not moved |
| Boards.Board.constructor | js/game/Board.js:2-4 | a fresh board holding the starting position on fresh pieces |
| Boards.Board.InitializeBoard | js/game/Board.js:6-44 | a fresh 8x8 array of fresh pieces whose value is the starting position |
| Boards.Board.PlaceColumn | js/game/Board.js:12-41 | the four starting pieces of one column are placed on fresh objects; every other square is untouched |
| Boards.Board.GetPiece | js/game/Board.js:46-48 | the content of the square; the board is unchanged |
| Boards.Board.SetPiece | js/game/Board.js:50-56 | the square gets the piece, which records the square; only that square changes, and the board value is updated accordingly (the square is removed for null) |
| Boards.Board.Clone | js/game/Board.js:58-62 | a fresh board whose array is a deep copy of this one |
| RulesSpec.FindKingFromSpec | js/game/rules.js:256-265 | the row-major king search finds the first king of the side from the starting index, and none exactly when no later square holds one |
| RuleFacts.RaySound | js/game/rules.js:133-154 | every move of a ray is sound: from the piece's square, onto an empty or enemy square on the board, capturing what stands there, without promotion |
| RuleFacts.RayShape | js/game/rules.js:138-151 | a ray is the empty squares along the direction in order, ended by at most one capture of the first enemy piece met |
| RuleFacts.SlidesSound | js/game/rules.js:133-154 | every sliding move of any direction list is sound |
| RuleFacts.JumpsSound | js/game/rules.js:157-182 | every knight or king step is sound |
| RuleFacts.PawnMoveRules | js/game/rules.js:30-94 | every pawn move is a forward step onto an empty square, a double step from the start row through an empty square, or a forward diagonal capture of an enemy; a queen promotion exactly on the last row |
| RuleFacts.PawnPushShape | js/game/rules.js:40-65 | the pushes have the shape above |
| RuleFacts.PawnCaptureShape | js/game/rules.js:69-93 | the captures have the shape above |
| RuleFacts.PawnStepComplete | js/game/rules.js:40-57 | the single step is generated exactly when the square in front is on the board and empty |
| RuleFacts.PawnDoubleStepComplete | js/game/rules.js:40-65 | the double step is generated exactly when the pawn is on its start row and the square in front and the one beyond are on the board and empty |
| RuleFacts.PawnCaptureComplete | js/game/rules.js:69-93 | a diagonal capture is generated exactly when an enemy piece stands on that diagonal square |
| RuleFacts.PawnAttacksOnEmptySquares | js/game/rules.js:288-303 | a pawn "attacks" an empty square only straight ahead: its forward push is what the attack test sees, never its diagonals |
| RuleFacts.EmptySquarePawnAttacks | js/game/rules.js:288-303 | an empty square counts as attacked by a pawn exactly when that pawn could push onto it, not when it is diagonally ahead |
| RuleFacts.AttackMovesOmitCastling | js/game/rules.js:185-211 | with `forAttack` the list is the full list without the king's castling moves, and has no castling move |
| RuleFacts.GeneratedMovesSound | js/game/rules.js:2-250 | every generated move starts on the piece's square, and a non-castling move lands on the board on an empty or enemy square and records what it captures; a castling move is the king's two-column step |
| RuleFacts.CastlingComplete | js/game/rules.js:216-249 | an unmoved king not in check gets the short and long castling moves whenever their conditions hold; an unmoved enemy rook on the corner serves as well, since the corner test does not check the colour |
| RuleFacts.NoKingNoCheck | js/game/rules.js:267 | a side without a king is never in check |
| RuleFacts.CheckIsAttackOnKing | js/game/rules.js:253-286 | otherwise being in check is the first king's square being attacked by the other side |
| Rules.PushMove | js/game/rules.js:142-145 | appends one fresh move of the piece, capturing what the board holds on the target |
| Rules.GenerateMovesForPiece | js/game/rules.js:2-27 | the moves' values are the value-layer `PieceMoves` of the piece, on fresh objects; board and piece unchanged |
| Rules.GeneratePawnMoves | js/game/rules.js:30-94 | appends exactly `PawnMoves` (pushes, then captures to the left and the right) |
| Rules.GeneratePawnPushes | js/game/rules.js:40-65 | appends exactly the single and double steps |
| Rules.PushSingle | js/game/rules.js:40-57 | appends the step onto the empty square, promoting to a queen on the last row |
| Rules.PushDouble | js/game/rules.js:60-65 | appends the double step exactly when its target is empty |
| Rules.GeneratePawnCapture | js/game/rules.js:69-93 | appends the diagonal capture exactly when an enemy stands there, promoting on the last row |
| Rules.GenerateRookMoves | js/game/rules.js:96-104 | appends the rays of the four straight directions |
| Rules.GenerateBishopMoves | js/game/rules.js:107-115 | appends the rays of the four diagonals |
| Rules.GenerateQueenMoves | js/game/rules.js:118-130 | appends the rays of all eight directions |
| Rules.GenerateSlidingMoves | js/game/rules.js:133-154 | appends the rays of the given directions, in order |
| Rules.SlideRay | js/game/rules.js:138-151 | appends one ray: empty squares until the edge, a friend, or an enemy that is captured |
| Rules.GenerateKnightMoves | js/game/rules.js:157-182 | appends the eight knight jumps that land on the board and not on a friend |
| Rules.GenerateJumps | js/game/rules.js:169-181 | appends the jumps of the offsets that land on the board and not on a friend, in order; the king's steps (lines 198-208) take the same form |
| Rules.GenerateKingMoves | js/game/rules.js:185-250 | appends the eight steps, and without `forAttack` the castling moves |
| Rules.GenerateCastles | js/game/rules.js:216-249 | nothing for a moved king or a king in check; otherwise the short castle, then the long one |
| Rules.AddShortCastle | js/game/rules.js:223-234 | appends the move to column 6 exactly when the corner rook is unmoved, columns 5-6 are empty and not attacked |
| Rules.AddLongCastle | js/game/rules.js:236-249 | appends the move to column 2 exactly when the corner rook is unmoved, columns 1-3 are empty and columns 2-3 are not attacked |
| Rules.IsKingInCheck | js/game/rules.js:253-286 | true exactly when the first king of the side, in row-major order, is attacked by an enemy piece's attack moves (false without a king) |
| Rules.IsSquareAttacked | js/game/rules.js:288-303 | true exactly when some piece of the attacking side has an attack move landing on the square |
| Rules.AttackerOn | js/game/rules.js:291-299 | one square of that scan: a piece of the side stands there and one of its attack moves lands on the square |
| Rules.LandsOn | js/game/rules.js:294-298 | some move of the list lands on the square |
| GameFacts.UndoAfterMakeRestores | js/game/GameState.js:52-189 | undoing a move that `makeMove` made restores the board, for every regular move except a capturing promotion |
| GameFacts.CapturingPromotionLosesCapture | js/game/GameState.js:147-154 | undoing a promotion that captured leaves the target square empty, so the board differs from the one before the move |
| GameFacts.UndoFixedAfterMakeRestores | js/game/GameState.js:140-189 | with the captured piece put back in the promotion branch, undo restores the board after every regular move |
| GameFacts.LegalFilter | js/game/GameState.js:23-25 | the filter keeps exactly the moves that do not leave the mover in check, and no more than it got |
| GameFacts.LegalMoveSource | js/game/GameState.js:13-33 | every legal move is a move generated for a piece of the side on some board square, and does not leave its king attacked |
| GameFacts.LegalMoveIncluded | js/game/GameState.js:13-33 | conversely every such move is legal |
| GameFacts.LegalMovesRegular | js/game/GameState.js:13-33 | a legal move belongs to the side and moves its own piece from its square; a castling rook's target is empty |
| GameFacts.MakeGridWellPlaced | js/game/GameState.js:99-120 | making a move keeps every piece recording its own square |
| GameFacts.PlayWellPlaced | js/game/GameState.js:52-139 | the same for the whole position after `makeMove` |
| GameStates.MoveOnCopy | js/game/GameState.js:35-50 | the copied board with the piece moved from `from` to `to`, as `wouldBeInCheckAfterMove` does it |
| GameStates.ShiftPiece | js/game/GameState.js:99-101 | the piece moves from `from` to `to`, records `to` and gets its new `hasMoved`; the other squares are untouched |
| GameStates.ReturnPiece | js/game/GameState.js:157-158 | the piece on `to` goes back to `from` and the captured piece (or nothing) returns to `to` |
| GameStates.SetMoved | js/game/GameState.js:172 | only the piece's `hasMoved` changes |
| GameStates.ShiftPieces | js/game/GameState.js:99-109 | the moving piece and, when castling, the rook move as `MakeGrid` says |
| GameStates.FindRook | js/game/GameState.js:74-96 | castling records the corner rook, its columns and its `hasMoved`; goes ahead exactly when that corner is occupied |
| GameStates.ApplyMove | js/game/GameState.js:99-120 | the board becomes `MakeGrid`; a fresh promoted piece exactly when the move promotes |
| GameStates.Promote | js/game/GameState.js:112-120 | a fresh unmoved piece of the promotion type and the mover's side replaces what stands on the square; no other square changes |
| GameStates.PlaceMove | js/game/GameState.js:99-120 | the board becomes `MakeGrid`; a move prepared as built is left where `undoMove` expects it (`UndoReady`), with the undo record `UndoAfterMake` of the board before |
| GameStates.PlaceOnBoard | js/game/GameState.js:99-120 | the board becomes `MakeGrid`, the mover (and a castling rook) records its new square and `hasMoved`, and the promoted piece is recorded on the move exactly when it promotes |
| GameStates.UndoPiecesOn | js/game/GameState.js:147-159 | the promotion branch empties `to` and puts the pawn back on `from`; the normal branch returns the piece on `to` to `from` and the captured piece (or nothing) to `to`; the board becomes `UndoPieces` |
| GameStates.RestorePromoted | js/game/GameState.js:147-154 | `to` is emptied, the captured piece is not put back, and the pawn goes back to `from`; no other square changes |
| GameStates.UndoRestOn | js/game/GameState.js:162-172 | the rook goes back with its `hasMoved`, and the mover gets its previous `hasMoved` |
| GameStates.UndoBoard | js/game/GameState.js:143-172 | the board after the undo is `UndoGrid` of the board before, which restores the board a move changed except after a capturing promotion (`GameFacts.UndoAfterMakeRestores`) |
| GameStates.CapturedOf | js/game/GameState.js:65-71 | what is pushed on a side's capture list: the captured piece exactly when it belongs to that side |
| GameStates.Uncaptured | js/game/GameState.js:175-183 | when the captured piece belongs to that side, the list loses its first occurrence (spliced at the first index holding it); otherwise the list is unchanged |
| GameStates.UncapturedAfterCapture | js/game/GameState.js:175-183 | removing the piece that was pushed restores the capture list |
| GameStates.GameState.constructor | js/game/GameState.js:2-11 | a new game: the starting position, White to move, empty history and capture lists, not over |
| GameStates.GameState.Reset | js/game/GameState.js:198-207 | the same, on a fresh board |
| GameStates.GameState.SwitchPlayer | js/game/GameState.js:193-196 | the turn passes to the other side and nothing else changes |
| GameStates.GameState.Prepare | js/game/GameState.js:62-96 | `prevHasMoved` and the capture lists are recorded; goes ahead exactly unless castling finds its corner empty; a move as built is then `Prepared` |
| GameStates.GameState.MakeMove | js/game/GameState.js:52-139 | nothing changes without a piece on `from`; the capture is recorded once a piece is found; when castling finds no rook, board, history and turn are unchanged; otherwise the move is appended and the position becomes `Play` of the old one (board `MakeGrid`, turn passed, end of game set); a regular move as built is left ready for `undoMove` with the undo record `UndoAfterMake` |
| GameStates.GameState.Perform | js/game/GameState.js:99-120 | the board becomes `MakeGrid`, with the promoted piece recorded on the move; a prepared move is left ready for `undoMove` |
| GameStates.GameState.Conclude | js/game/GameState.js:123-138 | the move is appended, the turn passes, and a side without legal moves has lost when in check and drawn otherwise; the board and the move's undo record are unchanged |
| GameStates.GameState.Record | js/game/GameState.js:123-126 | the move joins the history and the turn passes |
| GameStates.GameState.GameEnd | js/game/GameState.js:129-138 | stuck exactly when the side to move has no legal move; then the other side wins when it is in check, or the game is drawn |
| GameStates.GameState.EndGame | js/game/GameState.js:130-137 | the game is over with the given result; nothing else changes |
| GameStates.GameState.UndoMove | js/game/GameState.js:140-189 | nothing on an empty history; otherwise the last move is popped, the board becomes `UndoGrid` as written (which restores the board a move changed except after a capturing promotion, `GameFacts.UndoAfterMakeRestores`), the captured piece leaves its list, the turn passes back and the game is not over |
| GameStates.GameState.PopMove | js/game/GameState.js:143 | the last move is removed from the history and returned |
| GameStates.GameState.Unwind | js/game/GameState.js:175-188 | the capture lists lose the captured piece, the turn passes back, no winner |
| GameStates.GameState.WouldBeInCheckAfterMove | js/game/GameState.js:35-50 | true exactly when the mover's king is attacked on the copied board after the move |
| GameStates.GameState.GetAllLegalMoves | js/game/GameState.js:13-33 | the moves' values are `LegalMoves` of the board, square by square in row-major order, on fresh objects |
| GameStates.InCheckAfter | js/game/GameState.js:37-49 | the same on the board array |
| GameStates.FilterLegal | js/game/GameState.js:23-25 | keeps, in order, exactly the moves that do not leave the mover in check |
| GameStates.SquareLegalMoves | js/game/GameState.js:18-27 | the legal moves of the piece on one square when it belongs to the side |
| GameStates.LegalMovesOn | js/game/GameState.js:16-30 | all squares in row-major order |
| GameStates.RowLegalMoves | js/game/GameState.js:17-29 | the squares of one row in column order |
| EvalSpec.EvaluatePiece | js/ai/evaluation.js:135-150 | the material value, plus the table entry when the type has a table (mirrored for Black); material only without a table |
| EvalSpec.Magnitude | js/ai/evaluation.js:204 | `Math.abs`: non-negative and equal to the number or its negation |
| EvalSpec.KingNeighbors | js/ai/evaluation.js:63-72 | the eight neighbour offsets |
| EvalSpec.AttackedAround | js/ai/evaluation.js:74-93 | the count of neighbours on the board attacked by the enemy is between 0 and 8 |
| EvalSpec.DefendersAround | js/ai/evaluation.js:74-93 | the count of neighbours on the board holding a friend is between 0 and 8 |
| EvalSpec.CastledBonus | js/ai/evaluation.js:99-104 | 30 exactly on columns 2 or 6 of row 0 or 7, else 0 |
| EvalSpec.KingSafety | js/ai/evaluation.js:37-107 | -10000 exactly when the side has no king; otherwise between -220 and 70 |
| EvalFacts.EvaluateBoardZeroSum | js/ai/evaluation.js:2-34 | the evaluation for White is the negation of the evaluation for Black |
| EvalFacts.MaterialZeroSum | js/ai/evaluation.js:6-19 | the same for the material term |
| EvalFacts.MobilityZeroSum | js/ai/evaluation.js:110-132 | the same for the mobility term |
| EvalFacts.MobilityIsDifference | js/ai/evaluation.js:110-132 | mobility is the side's attack-move count minus the opponent's |
| EvalFacts.EvaluatePieceMirror | js/ai/evaluation.js:135-150 | a black piece on (r, c) scores as a white piece of its type on (7 - r, c) |
| EvalFacts.MoveScorePromotion | js/ai/evaluation.js:153-184 | a promotion scores exactly 800 more than the same move without one |
| EvalFacts.QuietMoveScoreRange | js/ai/evaluation.js:153-184 | a move onto the board that captures nothing scores between 0 and 862, and at least 800 exactly when it promotes |
| EvalFacts.CenterBonusRange | js/ai/evaluation.js:203-206 | the centre bonus is between 0 and 12: 12 exactly on the four central squares, 0 exactly in the corners |
| EvalFacts.MobilityOmitsCastling | js/ai/evaluation.js:117-127 | mobility counts the attack moves: the full moves without castling, none of them castling |
| EvalFacts.SortDescPermutes | js/ai/evaluation.js:153-184 | the ordering is a permutation of the moves |
| EvalFacts.SortDescSorted | js/ai/evaluation.js:153-184 | the scores along the ordering never increase |
| EvalFacts.SortDescStable | js/ai/evaluation.js:153-184 | moves of equal score keep their relative order, as the stable `Array.prototype.sort` does |
| EvalFacts.InsertKeeps | js/ai/evaluation.js:153-184 | one insertion adds exactly the element |
| EvalFacts.InsertSorted | js/ai/evaluation.js:153-184 | one insertion keeps the scores non-increasing |
| EvalFacts.InsertStable | js/ai/evaluation.js:153-184 | one insertion puts the element after every earlier element of its score |
| Evaluation.EvaluateBoard | js/ai/evaluation.js:2-34 | material, plus fifty times the king-safety difference, plus ten times mobility |
| Evaluation.MaterialScore | js/ai/evaluation.js:6-19 | own pieces add their `evaluatePiece`, the others subtract it |
| Evaluation.RowMaterial | js/ai/evaluation.js:7-18 | the same for one row |
| Evaluation.PieceMaterial | js/ai/evaluation.js:9-17 | the signed value of one square |
| Evaluation.EvaluateKingSafety | js/ai/evaluation.js:37-107 | `KingSafety`: -10000 without a king, otherwise -100 in check, -15 per attacked and +5 per defended neighbour, +30 on a castled square |
| Evaluation.FindKingOn | js/ai/evaluation.js:41-51 | the first king of the side in row-major order |
| Evaluation.KingNeighborhood | js/ai/evaluation.js:63-93 | the counts of attacked and of friendly neighbours |
| Evaluation.EvaluateMobility | js/ai/evaluation.js:110-132 | the side's attack-move count minus the opponent's |
| Evaluation.RowMobility | js/ai/evaluation.js:116-129 | the same for one row |
| Evaluation.GivesCheck | js/ai/evaluation.js:187-200 | true exactly when, on a copy with the piece moved, the other side's king is attacked (false without a piece on `from`) |
| Evaluation.CheckOnCopy | js/ai/evaluation.js:192-199 | the same on the copied board |
| Evaluation.ScoreMove | js/ai/evaluation.js:154-181 | the comparator's score: ten times the captured value minus the mover's, 50 for check, the centre bonus and 800 for a promotion |
| Evaluation.OrderMoves | js/ai/evaluation.js:153-184 | the moves stably sorted by descending score, as a permutation of the input |
| Evaluation.ScoreMoves | js/ai/evaluation.js:154-181 | the score of every move, in order |
| Evaluation.SortByScores | js/ai/evaluation.js:153-184 | the stable descending sort by the precomputed scores, a permutation |
| Evaluation.InsertByScore | js/ai/evaluation.js:153-184 | one insertion step: the move goes after every move scoring at least as much |
| Evaluation.InsertionPoint | js/ai/evaluation.js:153-184 | the first position whose score is below the new one |
| SearchSpec.Max | js/ai/MinimaxAI.js:148-149 | `Math.max` on scores with infinities: an upper bound equal to one argument |
| SearchSpec.Min | js/ai/MinimaxAI.js:173-174 | `Math.min`: a lower bound equal to one argument |
| SearchSpec.Minus | js/ai/MinimaxAI.js:53-58 | subtracting a penalty lowers a finite score by it and leaves an infinity |
| SearchSpec.CellKey | js/ai/MinimaxAI.js:98-103 | "." for an empty square, otherwise the type initial, side initial, row digit and column digit |
| SearchSpec.HistoryTable | js/ai/MinimaxAI.js:79-91 | the table has only the current key, counted once per undo attempt |
| SearchSpec.Child | js/ai/MinimaxAI.js:136-137 | the position after a legal move keeps every piece recording its square |
| SearchSpec.Ordered | js/ai/MinimaxAI.js:121-130 | the ordered moves are exactly the legal moves, as many of them |
| SearchSpec.PenaltyOf | js/ai/MinimaxAI.js:55-57 | no penalty for a position not in the table |
| SearchSpec.RootLoop | js/ai/MinimaxAI.js:35-66 | the kept index is the one entered with or one of the remaining replies |
| SearchSpec.SearchDepth | js/ai/MinimaxAI.js:27-28 | the search never goes shallower than the set depth |
| SearchSpec.BestMove | js/ai/MinimaxAI.js:10-76 | the chosen move is legal, and there is none when the side has no legal move |
| SearchSpec.PlainChoice | js/ai/MinimaxAI.js:60-65 | the reference choice keeps the index entered with or a remaining one |
| SearchFacts.NodeShape | js/ai/MinimaxAI.js:116-130 | a position is searched further exactly when depth is positive, the game goes on and the side has a legal move |
| SearchFacts.NodeKids | js/ai/MinimaxAI.js:130-135 | such a node has one subtree per ordered legal move |
| SearchFacts.SubtreeAt | js/ai/MinimaxAI.js:132-182 | subtree `j` is the tree of the position after the `j`-th ordered move, one ply shallower, the other side searching |
| SearchFacts.LeafSearch | js/ai/MinimaxAI.js:116-128 | at depth 0 or once over, the board score for the AI's side; without legal moves, -Infinity or Infinity when in check, 0 otherwise |
| SearchFacts.LeOrder | js/ai/MinimaxAI.js:109-183 | the order on scores is total |
| SearchFacts.TreeBounded | js/ai/MinimaxAI.js:109-183 | fail-soft alpha-beta: inside the window the result is the plain minimax value; at or below alpha it lies between the value and alpha; at or above beta between beta and the value |
| SearchFacts.MaxLoopBounded | js/ai/MinimaxAI.js:132-156 | the maximizing loop, from any subtree on, satisfies the same bound against the best so far and the remaining subtrees |
| SearchFacts.MinLoopBounded | js/ai/MinimaxAI.js:157-182 | the minimizing loop, symmetrically |
| SearchFacts.SearchBounded | js/ai/MinimaxAI.js:109-183 | `minimax` on a position satisfies the fail-soft bound against its plain minimax value |
| SearchFacts.FullWindowExact | js/ai/MinimaxAI.js:109-183 | with the window (-Infinity, Infinity) `minimax` returns exactly the plain minimax value |
| SearchFacts.RootMatchesPlain | js/ai/MinimaxAI.js:35-66 | without penalties the root loop keeps the same reply as the plain-minimax choice |
| SearchFacts.PlainChoiceBest | js/ai/MinimaxAI.js:60-65 | the plain choice keeps the first reply of greatest value, and none exactly when all are -Infinity |
| SearchFacts.RootChoiceBest | js/ai/MinimaxAI.js:35-66 | without penalties the root loop keeps the first reply of greatest plain minimax value, none exactly when all are -Infinity |
| SearchFacts.BestMoveIsBest | js/ai/MinimaxAI.js:10-76 | when no move repeats a counted position, `findBestMove` returns the first ordered legal move whose reply has the greatest plain minimax value, and none exactly when every reply is -Infinity |
| SearchFacts.FoundMoveIsBest | js/ai/MinimaxAI.js:10-76 | with the table `findBestMove` builds, the move is the first ordered legal move whose reply has the greatest plain minimax value, and there is none exactly when every reply is -Infinity |
| SearchFacts.NoChildCounted | js/ai/MinimaxAI.js:79-91 | the table built from the current key holds no position a legal move leads to |
| SearchFacts.MoveChangesKey | js/ai/MinimaxAI.js:94-107 | a legal move changes the position key |
| SearchFacts.LegalMoveVacatesSource | js/game/GameState.js:99-101 | a legal move empties its occupied starting square |
| SearchFacts.EmptiedSquareChangesKey | js/ai/MinimaxAI.js:98-103 | boards that differ in whether one square is empty have different keys |
| SearchFacts.SameKeySameCells | js/ai/MinimaxAI.js:94-107 | boards with the same key have the same key on every square |
| SearchFacts.RootReplyAt | js/ai/MinimaxAI.js:35-58 | reply `j` is the tree of the position after ordered move `j`, penalised by that position's count |
| SearchFacts.ReplyValueIsValue | js/ai/MinimaxAI.js:41-51 | the reply's value is the plain minimax value of the position after the move, the opponent to move |
| SearchFacts.NoPenalties | js/ai/MinimaxAI.js:54-58 | moves leading to no counted position carry no penalty |
| SearchFacts.SameFiguresSameKey | js/ai/MinimaxAI.js:94-107 | boards with the same type and side on every square have the same key |
| SearchFacts.RestampKey | js/ai/MinimaxAI.js:185-212 | copying a board keeps its key |
| SearchFacts.HistoryTableStep | js/ai/MinimaxAI.js:89 | counting the key once more gives the table with one more occurrence |
| SearchFacts.HistoryTablePenalty | js/ai/MinimaxAI.js:79-91 | the table penalises only the current position, fifty per occurrence |
| SearchFacts.NoMovesAfterMoveIsOver | js/ai/MinimaxAI.js:123-128 | after a move, a side left without legal moves is in a finished game, so `minimax` stops at its game-over test |
| MinimaxSearch.LegalPlaced | js/game/GameState.js:13-33 | legal moves have both squares on the board |
| MinimaxSearch.MinimaxAI.constructor | js/ai/MinimaxAI.js:2-8 | the given depth and time budget and an empty repetition table |
| MinimaxSearch.MinimaxAI.SetDifficulty | js/ai/MinimaxAI.js:214-227 | the depth clamped to 2..8; the budget 15000 at depth 8, 8000 from depth 6, 5000 below |
| MinimaxSearch.MinimaxAI.GetPositionKey | js/ai/MinimaxAI.js:94-107 | the cell keys of the board in row-major order |
| MinimaxSearch.MinimaxAI.RowKey | js/ai/MinimaxAI.js:97-104 | the cell keys of one row |
| MinimaxSearch.MinimaxAI.CellKeyOf | js/ai/MinimaxAI.js:98-103 | the key of one square |
| MinimaxSearch.MinimaxAI.CloneGameState | js/ai/MinimaxAI.js:185-212 | a fresh state on a deep copy of the board, with the same turn and end-of-game flags and empty history and capture lists |
| MinimaxSearch.MinimaxAI.BuildPositionHistory | js/ai/MinimaxAI.js:79-91 | the table counts the current key once per undo attempt (up to ten); the game is untouched |
| MinimaxSearch.MinimaxAI.CountPositions | js/ai/MinimaxAI.js:83-90 | the counting loop on a copy gives `HistoryTable` |
| MinimaxSearch.MinimaxAI.CountUndone | js/ai/MinimaxAI.js:86-90 | the loop body repeated: the same table |
| MinimaxSearch.MinimaxAI.UndoAndKey | js/ai/MinimaxAI.js:87-88 | undo on a copy without history changes nothing, and the key is the position's |
| MinimaxSearch.MinimaxAI.Minimax | js/ai/MinimaxAI.js:109-183 | the result is `Search`, the alpha-beta value of the game tree below the position; the board is restored |
| MinimaxSearch.MinimaxAI.SearchMoves | js/ai/MinimaxAI.js:120-182 | the moves are ordered and the side's loop runs |
| MinimaxSearch.MinimaxAI.MaxSearch | js/ai/MinimaxAI.js:132-156 | the maximizing loop computes `AlphaBeta` of the node |
| MinimaxSearch.MinimaxAI.MinSearch | js/ai/MinimaxAI.js:157-182 | the minimizing loop computes `AlphaBeta` of the node |
| MinimaxSearch.MinimaxAI.ChildValue | js/ai/MinimaxAI.js:136-146 | the value of subtree `i`: the move is made on a copy and searched; lines 161-171 do the same for the minimising side |
| MinimaxSearch.MinimaxAI.PlayOnCopy | js/ai/MinimaxAI.js:136-137 | a copy of the state with the move made is `Play` of the position; the original is unchanged |
| MinimaxSearch.MinimaxAI.RootValue | js/ai/MinimaxAI.js:41-58 | the penalised value of reply `i` |
| MinimaxSearch.MinimaxAI.RootSearch | js/ai/MinimaxAI.js:35-66 | the root loop keeps the move of the index `RootLoop` returns, null for -1 |
| MinimaxSearch.MinimaxAI.Penalize | js/ai/MinimaxAI.js:54-58 | fifty points off per counted occurrence of the position |
| MinimaxSearch.MinimaxAI.FindBestMove | js/ai/MinimaxAI.js:10-76 | the repetition table is built, and the move returned is `BestMove` of the position (null exactly when it is none); the board is unchanged |
| MinimaxSearch.MinimaxAI.ChooseMove | js/ai/MinimaxAI.js:17-75 | the move is `BestMove` for the given table |
| MinimaxSearch.MinimaxAI.PickMove | js/ai/MinimaxAI.js:23-66 | the ordered moves are searched and the root loop's move is kept |

## Left out

- The wall clock: `Date.now()`, `startTime`, `timeLimit` comparisons and `nodesEvaluated` are dropped. Every search runs to its full depth. `timeLimit` is kept as a field only.
- Console output is dropped: `console.log`, `console.error`, and the helper `logMove`.
- The 3-D vector helpers in `js/utils/helpers.js` (`lookAt`, `cross`, `dot`, `normalizeVec3`) are rendering code.
- `js/utils/constants.js` is not part of this model. The piece values and position tables are the parameter `Weights`. The type and side initials of position keys are the parameter `Initials`.
- Pieces.Piece.GetSymbol: `toLowerCase` is a parameter, because the source applies the host's Unicode lower-casing to the glyph.
- Moves.Move.Equals: a predicate over the four coordinates; its row is `Moves.EqualsIsEquivalence`.
- En passant: no generator ever sets `isEnPassant`, so the model never generates it either.
- The UI fields `selectedPiece` and `validMoves` of the game state are dropped. They are never read by the engine.
- Rules.GenerateMovesForPiece: for an unmoved king outside `forAttack`, it requires the king's row to be on the board, because the source reads `board[row][7]` and `board[row][0]` there.
- Helpers.IndicesToNotation: requires `97 + col` to be a character code below the surrogate range; `String.fromCharCode` of other values is not modelled.
- GameStates.GameState.MakeMove: the new position is stated for regular moves only (`Regular`): the board has every piece recording its own square, both squares are on the board and differ, and a castling move stays on one row from column 4 to column 6 or 2. Every legal move is regular, and a legal move also moves a piece of the recorded type and castles only onto an empty rook target (`GameFacts.LegalMovesRegular`).
- GameStates.GameState.UndoMove: the board after undo is stated when the recorded move still matches the board (`UndoReady`). `MakeMove` leaves a regular move made as the generators build it in that state, with the undo record `UndoAfterMake` (`GameFacts.UndoAfterMakeRestores`).
- SearchFacts.MoveChangesKey: assumes every unmoved king stands on column 4 (`KingsAtHome`), as in every position reached by play. An unmoved king elsewhere would castle from the empty square `(row, 4)` and leave the board and key unchanged.
- Helpers.NotationToIndices: `None` stands for the source's result whose `row` is `NaN` (`parseInt` of a missing or non-digit second character); the model does not carry that `NaN` row or the column computed beside it.
- MinimaxSearch.MinimaxAI.FindBestMove: requires `depth >= 1` and a board whose pieces record their squares. `setDifficulty` keeps the depth at 2 or more, and every position reached by play satisfies the second. At depth 0 or below, the source would search until the game ends or the time limit passes.
- MinimaxSearch.MinimaxAI.BuildPositionHistory: the source undoes moves on a clone, and `cloneGameState` gives the clone an empty history. Every undo therefore does nothing, and the table counts the current position once per attempt. The model states exactly this.
- MinimaxSearch.MinimaxAI.Minimax: the result is stated for boards whose pieces record their own squares (`WellPlaced`), which every position reached from the starting position satisfies.
- Evaluation.OrderMoves: the comparator recomputes each move's score on every comparison. The model computes each score once and sorts stably, which gives the same order for the deterministic scores of `Array.prototype.sort`.
- Loop bodies that the source writes inline (`forEach` callbacks, the per-square bodies of double loops) are separate methods here, each with its own contract.

## Findings

| source | as written | input that shows it | evidently intended | confidence | as-written member | corrected member |
|---|---|---|---|---|---|---|
| js/game/GameState.js:147-159 | `undoMove` of a promotion puts the pawn back on `from` and empties `to`, but never puts `move.capturedPiece` back on `to` | a white pawn on row 1 captures a black rook on row 0 and promotes; `undoMove` leaves the rook's square empty | the promotion branch restores the captured piece on `to`, as the normal branch does | not executed | GameFacts.CapturingPromotionLosesCapture | GameFacts.UndoFixedAfterMakeRestores |
