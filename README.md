# Shōbu rules engine in Dafny

This project models the rules engine of a Shōbu implementation: the board, the
push geometry, the move notation and the game, as written in
`src/game/board.ts`. A game has four 4×4 boards and a side to move. A move
is one vector, played twice:

- a *passive* push on one of the mover's two home boards, which must cross only
  empty cells;
- an *aggressive* push on a board of the other colour, which may shove at most
  one opposing stone one cell further, possibly off the board.

The model has two layers:

- **Values.** Each board is a value of 16 cells read row by row. On these
  values the model defines the text forms, legality, the effect of a push, the
  effect of a move and the terminal test. The modules are `Stones`, `Vectors`,
  `Grids`, `Pushes`, `Moves` and `Games`. `Results` holds the error datatypes.
- **Mutable objects.** The engine's own objects are classes whose fields are
  updated in place:
  - `Boards.Board` keeps its cells in a field that `Place` rewrites one cell
    at a time. `PushStone` empties, carries and places stones step by step.
  - `Shobu.ShobuGame` keeps four distinct `Board` objects and the side to
    move. `MakeMove` pushes on two of them and then flips the turn.

  Each method is proved against the value function that specifies it.

Thrown exceptions become `Result` values. The error kinds are:

- `WrongBoardFormat`: a bad board string;
- `WrongMoveFormat`: a move text off the grammar;
- `WrongBoardIndex`: a cell index above 15;
- `IllegalMove`: a move `makeMove` refuses.

The move grammar `(1|2)(U|UR|R|DR|D|DL|L|UL)(w|b)(\d+)(h|f)(\d+)` is written
as a lexer, `Moves.Lex`, and a printer, `Moves.Spell`. The two are proved
inverse in both directions. The board-index arithmetic uses an explicit
bitwise exclusive or, `Moves.Xor`.

## Model

| member | source | states |
|---|---|---|
| Stones.Owns | src/game/board.ts:57-63 | a stone belongs to a side exactly when it is that side's stone; an empty cell belongs to nobody |
| Stones.Other | src/game/board.ts:173 | the side handed the turn is never the side that moved |
| Vectors.Shift | src/game/board.ts:201-212 | each of the eight directions is a unit step in each coordinate, never the null step |
| Vectors.Vector.ShiftOnce | src/game/board.ts:219-222 | one shift is one step along the direction |
| Vectors.Vector.Apply | src/game/board.ts:224-230 | for length 1 or 2 the push ends `length` steps from the source; any other length leaves the source in place |
| Vectors.Vector.After | src/game/board.ts:232-234 | the cell after the push is one step beyond its end, `length + 1` steps from the source |
| Vectors.Vector.Visited | src/game/board.ts:236-242 | the crossed cells number `length` for length 1 or 2 and none otherwise; cell k is k + 1 steps out and the last is where the push ends |
| Vectors.PathCellsDistinct | src/game/board.ts:219-242 | for length 1 or 2, the source, the crossed cells and the cell after are pairwise different |
| Grids.Index | src/game/board.ts:49-55 | cell (row, col) is element row·4 + col of the flat cells, with row = i div 4 and col = i mod 4 |
| Grids.CellAt | src/game/board.ts:49-55 | every flat index 0..15 is the index of exactly the cell (i div 4, i mod 4) on the board |
| Grids.IsValidPosition | src/game/board.ts:45-47 | both coordinates in [0, 4); the cells it admits are exactly those `Grids.Index` and `Grids.CellAt` put in one-to-one correspondence with 0..15 |
| Grids.At | src/game/board.ts:49-54 | the stone on a cell; `Grids.Place` states how it changes under a write |
| Grids.Place | src/game/board.ts:55 | the written cell holds the new stone and every other cell keeps its stone |
| Grids.Blank | src/game/board.ts:15-20 | the empty board has 16 cells, all empty |
| Grids.ToString | src/game/board.ts:38-40 | the text has one character per cell, in row-major order |
| Grids.FromString | src/game/board.ts:22-32 | a board is read exactly from the 16-character strings over `b`, `w`, `_`; anything else is a board format error |
| Grids.ParseThenPrint | src/game/board.ts:22-40 | every accepted board string is written back unchanged |
| Grids.PrintThenParse | src/game/board.ts:22-40 | every board written as text reads back as the same board |
| Grids.Rows | src/game/board.ts:28-31 | the four rows of four cells that `batch` forms hold, at (r, c), the cell at row r and column c |
| Grids.IsTerminal | src/game/board.ts:122-126 | the zero-count test; `Grids.TerminalIff` states it as the absence of white or of black stones |
| Grids.TerminalIff | src/game/board.ts:122-126 | a board is terminal exactly when no white stone or no black stone is left |
| Grids.Initial | src/game/board.ts:34-36 | cells 0..3 are white, cells 12..15 black and the rest empty |
| Grids.InitialNotTerminal | src/game/board.ts:34-36 | the initial board `wwww________bbbb` is not terminal |
| Grids.ClearedSideIsTerminal | src/game/board.ts:122-126 | a board without stones of one side is terminal |
| Pushes.StonesAt | src/game/board.ts:86 | the stones read along a path are the stones on its cells, in path order |
| Pushes.IsValidPassive | src/game/board.ts:65-69 | the `every` over the crossed cells; `Pushes.PassiveIff` states it step by step, both ways |
| Pushes.PassiveIff | src/game/board.ts:65-69 | a passive push is legal exactly when the mover owns the source and, for length 1 or 2, each of the 1..length steps is on the board and empty |
| Pushes.IsValidAggressive | src/game/board.ts:71-92 | the two filter counts over the path; `Pushes.AggressiveIff` states them as no own stone and no two opposing stones, both ways |
| Pushes.AggressiveIff | src/game/board.ts:71-92 | an aggressive push is legal exactly when the mover owns the source, every crossed cell is on the board, no path cell (the crossed cells plus the cell after when on the board) holds a stone of the mover, and no two path cells hold opposing stones |
| Pushes.AggressivePathStones | src/game/board.ts:71-92 | on a legal aggressive path the crossed cells hold only empty cells or opposing stones, at most one opposing stone, and the cell after is empty whenever a stone is pushed |
| Pushes.FirstStone | src/game/board.ts:108-110 | the `reduce` gives its seed unless that is empty; otherwise it gives empty exactly when every stone is empty, and else the first non-empty stone |
| Pushes.FirstStoneOf | src/game/board.ts:108-110 | over empty cells and stones of one kind, the reduce gives that kind exactly when some stone is of it |
| Pushes.ClearAll | src/game/board.ts:118 | after the `forEach`, the listed cells are empty and every other cell keeps its stone |
| Pushes.Pushed | src/game/board.ts:94-120 | the board after `pushStone`; its effect is stated by `Pushes.PassiveEffect`, `Pushes.AggressiveCarried`, `Pushes.AggressiveCells`, `Pushes.AggressiveCounts` and `Pushes.DegeneratePushIsNoop` |
| Pushes.PassiveEffect | src/game/board.ts:94-120 | after a legal passive push the source is empty, the destination holds the mover's stone, no other cell changes, and the count of each kind is unchanged |
| Pushes.AggressiveCarried | src/game/board.ts:105-116 | the stone carried by a legal aggressive push is an opposing stone exactly when a crossed cell held one, and nothing otherwise |
| Pushes.AggressiveCells | src/game/board.ts:94-120 | after a legal aggressive push the mover's stone is on the destination; the source and the intermediate cells are empty; a met opposing stone lands on the cell after, which was empty, when that cell is on the board; the cell after is untouched when nothing is met; cells off the path keep their stone |
| Pushes.AggressiveCounts | src/game/board.ts:94-120 | a legal aggressive push keeps the mover's count; the opponent loses exactly one stone when a met stone is pushed off the board, and none otherwise |
| Pushes.DegeneratePushIsNoop | src/game/board.ts:94-120 | a push whose length is neither 1 nor 2 leaves the board unchanged |
| Boards.Board.FromCells | src/game/board.ts:10-12 | a new board whose cells are exactly the given sixteen cells |
| Boards.Board.Blank | src/game/board.ts:15-20 | a new board with every cell empty |
| Boards.Board.Initial | src/game/board.ts:34-36 | a new board holding the initial position |
| Boards.Board.FromString | src/game/board.ts:22-32 | a new board is built exactly for board strings, holding the cells the string denotes; otherwise a board format error |
| Boards.Board.ToString | src/game/board.ts:38-40 | the board's text is a board string that reads back as its cells |
| Boards.Board.IsTerminal | src/game/board.ts:122-126 | the board is terminal exactly when no white stone or no black stone is left on it |
| Boards.Board.Place | src/game/board.ts:55 | the board's cells become the old cells with the one cell rewritten |
| Boards.Board.ClearCells | src/game/board.ts:118 | emptying the crossed cells one by one leaves the cells `ClearAll` describes |
| Boards.Board.PushStone | src/game/board.ts:94-120 | the in-place push leaves exactly the cells of the value-level push `Pushes.Pushed` |
| Moves.ReadDirection | src/game/board.ts:267 | a recognised direction is the text of that direction at the head of the input |
| Moves.LeadingDigits | src/game/board.ts:267 | the taken prefix is all digits and is followed by a non-digit or the end |
| Moves.Lex | src/game/board.ts:267-271 | the regex match; `Moves.LexIff`, `Moves.SpellThenLex` and `Moves.LexThenSpell` state that it accepts exactly the spelled well-formed groups and recovers them |
| Moves.SpellThenLex | src/game/board.ts:267-271 | every well-formed move text splits back into its six groups |
| Moves.LexThenSpell | src/game/board.ts:267-271 | whatever the grammar accepts is well-formed groups that spell the input exactly |
| Moves.LexIff | src/game/board.ts:267-271 | a text matches the move grammar exactly when it is the spelling of well-formed groups |
| Moves.Xor | src/game/board.ts:290-292 | bitwise exclusive or; `Moves.XorSmall` states it bit by bit on the board indices |
| Moves.XorSmall | src/game/board.ts:290-291 | the exclusive or of two numbers below 4 is below 4, bitwise the sum of their bits modulo 2, and differs from the first when the second is non-zero |
| Moves.DecimalValue | src/game/board.ts:274 | the `parseInt` value of a digit string; `Moves.DecodeExample` fixes the values 1, 5 and 9 used by the example, and `Moves.ParseIndex` relates it to the cell |
| Moves.ParseIndex | src/game/board.ts:273-279 | an index of at most 15 gives the cell with that row-major index; a larger one is a board index error |
| Moves.PassiveBoard | src/game/board.ts:290-291 | the passive board is 2 or 0 for black or white, plus 1 for the `w` selector |
| Moves.AggressiveBoard | src/game/board.ts:292 | the aggressive board is a board other than the passive one and of the other parity; in the same pair for `h` and in the other pair for `f` |
| Moves.Decode | src/game/board.ts:281-298 | the groups give a move exactly when both indices are at most 15, else a board index error; the move has the written length and direction, cells with the written indices, the passive board from side and selector, and the aggressive board `passive xor (h ? 1 : 3)`: of the other parity, and in the same pair exactly for `h` |
| Moves.Parse | src/game/board.ts:266-298 | `Move.fromString`; `Moves.ParseByLex`, `Moves.ParseOkIff`, `Moves.Decode` and `Moves.ParseExample` state when it succeeds, its errors and the move it gives |
| Moves.ParseByLex | src/game/board.ts:266-298 | parsing is a format error exactly when the grammar rejects the text, and succeeds exactly when it matches and both indices fit |
| Moves.ParseOkIff | src/game/board.ts:266-298 | a move text parses exactly when it spells well-formed groups with indices at most 15, and is a format error exactly when it spells no well-formed groups |
| Moves.LexExample | src/game/board.ts:267-271 | `1Rw5h9` splits into length 1, direction R, selector `w`, index 5, selector `h`, index 9 |
| Moves.DecodeExample | src/game/board.ts:281-298 | for black those groups give cell (1,1) on board 3 and cell (2,1) on board 2 |
| Moves.ParseExample | src/game/board.ts:266-298 | for black, `1Rw5h9` is the one-step push right from cell (1,1) of board 3 and from cell (2,1) of board 2 |
| Games.Split | src/game/board.ts:177 | `split(' ')` gives at least one piece and no piece contains a space |
| Games.Join | src/game/board.ts:185 | the pieces joined with single spaces; `Games.JoinSplit` and `Games.SplitJoin` state that it and `Games.Split` undo each other |
| Games.JoinSplit | src/game/board.ts:177-185 | joining the pieces of a split with single spaces gives the text back |
| Games.SplitJoin | src/game/board.ts:177-185 | splitting pieces joined by single spaces gives the pieces back when none contains a space |
| Games.ParseBoards | src/game/board.ts:179 | every piece is read as a board, in order, exactly when every piece is a board string; else a board format error |
| Games.Parse | src/game/board.ts:176-182 | `ShobuGame.fromString` on values; `Games.ParseIff` states when it succeeds, the side and the boards |
| Games.ParseIff | src/game/board.ts:176-182 | a game text is read exactly when every piece after the first is a board string; white moves exactly when the first piece is `w`; board i comes from piece i + 1; otherwise a board format error |
| Games.Format | src/game/board.ts:184-186 | `ShobuGame.toString` on values; `Games.FormatThenParse` and `Games.ParseThenFormat` state the round trip both ways |
| Games.FormatThenParse | src/game/board.ts:176-186 | a written position splits into the side's initial and the board strings in order, and reads back as the same side and the same boards |
| Games.ParseThenFormat | src/game/board.ts:176-186 | a game text whose side piece is `b` or `w` is written back unchanged |
| Games.IsTerminal | src/game/board.ts:188-190 | `ShobuGame.isTerminal` on values; `Games.AnyTerminal` states it as some board being terminal |
| Games.AnyTerminal | src/game/board.ts:188-190 | a list of boards is terminal exactly when some board in it is terminal |
| Games.Initial | src/game/board.ts:143-148 | four initial boards, black to move, a valid position; `Games.InitialNotTerminal` states that it is not terminal |
| Games.InitialNotTerminal | src/game/board.ts:143-148 | the initial game is not terminal |
| Games.ZipCycle | src/game/board.ts:150-152 | each board is paired with black at even index and white at odd index, in order |
| Games.IsValid | src/game/board.ts:155-158 | both halves legal for the side to move; `Games.MakeMoveOutcome` states that a move is rejected exactly when it is not valid |
| Games.MakeMove | src/game/board.ts:160-174 | a played move leaves four sixteen-cell boards |
| Games.MakeMoveOutcome | src/game/board.ts:160-174 | a move is rejected, with an illegal-move error, exactly when it is illegal; an accepted move hands the turn to the other side and leaves the two boards it does not name unchanged |
| Games.MakeMoveCounts | src/game/board.ts:160-174 | on two different boards: the passive board keeps each count, the mover keeps every stone on the aggressive board, and the opponent loses at most one stone there, exactly when one is pushed off the board |
| Games.ParsedMoveCounts | src/game/board.ts:160-174 | a legal move parsed for the side to move hands over the turn, leaves the two boards it does not name unchanged, keeps the passive board's counts, keeps the mover's count on the aggressive board, and costs the opponent at most one stone there and never adds one |
| Shobu.ShobuGame.FromBoards | src/game/board.ts:138-141 | a new game over exactly the given four distinct boards, with the given side to move |
| Shobu.ShobuGame.Initial | src/game/board.ts:143-148 | a new game of four fresh initial boards, black to move |
| Shobu.ShobuGame.FromString | src/game/board.ts:176-182 | a new game is built exactly when the text reads as a position, holding that position in four fresh boards; otherwise the reading's error |
| Shobu.ShobuGame.ReadBoards | src/game/board.ts:179 | new, distinct boards, one per piece and in order, exactly when every piece is a board string; otherwise a board format error |
| Shobu.ShobuGame.ToString | src/game/board.ts:184-186 | the game text starts with the piece `b` or `w` of the side to move and reads back as the game's own position |
| Shobu.ShobuGame.IsTerminal | src/game/board.ts:188-190 | the game is terminal exactly when one of its four boards is |
| Shobu.ShobuGame.IsValid | src/game/board.ts:155-158 | a move is valid exactly when its passive half is legal on its board and its aggressive half on its board, for the side to move |
| Shobu.ShobuGame.GetBoards | src/game/board.ts:150-152 | the pairs list the game's boards in order, with black at even index and white at odd index |
| Shobu.ShobuGame.PushOn | src/game/board.ts:171-172 | pushing on one board changes that board as `Pushes.Pushed` says and leaves the other boards and the turn unchanged |
| Shobu.ShobuGame.PassTurn | src/game/board.ts:173 | the other side is to move and the boards are unchanged |
| Shobu.ShobuGame.MakeMove | src/game/board.ts:160-174 | an illegal move fails with an illegal-move error and changes nothing; a legal one leaves the game in the position `Games.MakeMove` gives, on the same board objects |

## Left out

- The `console.log` calls in `pushStone` and `makeMove` (src/game/board.ts:95-102, 161-166) are left out because they only print.
- The user interface, the HTTP bot client and the Python move server (`src/app.tsx`, `src/bot.ts`, `src/server/server.py`) are not part of this model. They are presentation, network and process control.
- `iter-tools` (`batch`, `cycle`, `zip`), the regular expressions and `parseInt` become sequence functions: `Grids.Rows`, `Games.ZipCycle`, `Moves.Lex` and `Moves.DecimalValue`. The digit groups are read as unbounded naturals. JavaScript loses precision on very long digit strings, but every such value is above 15 and is rejected either way.
- `parseIdx` also rejects negative indices. A `\d+` group can never be negative, so that test has no branch in the model.
- A board keeps its 16 cells as one flat sequence, row by row, rather than as an array of row arrays. Aliasing between rows is not modelled. `Grids.Rows` gives the row view back.
- Out-of-range reads are excluded by preconditions: a source cell on the board, and four boards with board indices below 4. In the source, an off-board row makes `this.content[row][col]` (src/game/board.ts:50, 53) throw a `TypeError`, and so does a board index outside 0..3 in `isValid` and `makeMove` (src/game/board.ts:156-157, 161-175). Only an off-board column on an on-board row reads `undefined`, which `owns` turns into a falsy `undefined`, so the move is refused.
- `Shobu.ShobuGame.FromString`: requires exactly four board pieces, which the source does not check. The value-level `Games.Parse` accepts any number of pieces, as the source does.
- The side piece: the source compares the whole first piece with `w`, so any other piece, such as `white`, means black. The model follows that code, not the looser reading that only its first letter counts.
- The `h`/`f` derivation of the aggressive board is modelled exactly as written. The model does not compare it with any other statement of the cross-board rule.
- `makeMove` accepts a move on a terminal game. The model does the same and adds no such check.
- `Games.MakeMoveCounts`: stated only for moves whose two boards differ, which every parsed move satisfies (`Moves.AggressiveBoard`). With a single board the two pushes compose and the counts are not stated.
- `Pushes.PassiveEffect`, `Pushes.AggressiveCells` and `Pushes.AggressiveCounts`: stated for lengths 1 and 2, the only lengths the grammar produces. `Pushes.DegeneratePushIsNoop` covers every other length.
