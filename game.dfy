/**
 * The game controller of chess/UI/GameOperation.java without its window: the selection of
 * a piece, the confirmation of a move, the recorded history and its replay for undo and redo.
 *
 * The board the game shows is always the starting position with the first movesLen moves of
 * the history replayed on it, each with the promotion choice given when it was played.
 */
module Game {
  import opened Pieces
  import opened Boards
  import opened BoardState
  import Rules
  import RulesTheorems
  import BoardFacts
  import Engine

  /** One entry of the history, {fromX, fromY, toX, toY}. */
  datatype Move = Move(fromX: int, fromY: int, toX: int, toY: int)

  /** What the dialogs of makeMove report about the side that has to move next. */
  datatype Outcome = Ongoing | Checkmate(loser: Color) | Stalemate

  /**
   * The piece the coronation dialog creates in place of the pawn: 1 a knight, 2 a rook
   * created as already moved, 3 a bishop, any other answer (the default or a closed dialog)
   * a queen.
   */
  function Promoted(pawn: Piece, choice: int): (r: Piece)
    ensures r.x == pawn.x && r.y == pawn.y && r.color == pawn.color
    ensures r.kind in {Knight, Rook, Bishop, Queen}
    ensures r.kind == Queen <==> choice !in {1, 2, 3}
    ensures WellFormed(r) && HasBeenMoved(r)
  {
    var kind := if choice == 1 then Knight else if choice == 2 then Rook else if choice == 3 then Bishop else Queen;
    Make(kind, pawn.x, pawn.y, pawn.color, kind == Rook, false)
  }

  /** The choice asked for the i-th move of a replay; an answer not given is a closed dialog. */
  function ChoiceAt(choices: seq<int>, i: nat): int
  {
    if i < |choices| then choices[i] else -1
  }

  /** The answers of the first n coronation dialogs of a replay. */
  function Answers(choices: seq<int>, n: nat): (r: seq<int>)
    ensures |r| == n && forall i :: 0 <= i < n ==> r[i] == ChoiceAt(choices, i)
  {
    if n == 0 then [] else Answers(choices, n - 1) + [ChoiceAt(choices, n - 1)]
  }

  /** The promotion at the end of makeMove: the pawn coronation finds, replaced by the chosen piece. */
  function Promotion(b: Cells, choice: int): Cells
  {
    match Rules.Coronation(b)
    case None => b
    case Some(pawn) => AddPiece(b, Promoted(pawn, choice))
  }

  /** The board after makeMove: movePiece, then the promotion. */
  function Play(b: Cells, m: Move, choice: int): Cells
  {
    Promotion(MovePiece(b, m.fromX, m.fromY, m.toX, m.toY), choice)
  }

  /** The starting position with the moves played in order, the i-th with choices[i]. */
  function Replay(moves: seq<Move>, choices: seq<int>): Cells
    requires |choices| == |moves|
    decreases |moves|, 1
  {
    if moves == [] then DefaultBoard() else ReplayLast(moves, choices)
  }

  /** Replay of a non-empty history: its last move played on the replay of the others. */
  function ReplayLast(moves: seq<Move>, choices: seq<int>): Cells
    requires |choices| == |moves| > 0
    decreases |moves|, 0
  {
    var n := |moves| - 1;
    Play(Replay(moves[..n], choices[..n]), moves[n], choices[n])
  }

  /** The side to move after n moves: White starts. */
  function TurnAfter(n: int): Color
  {
    if n % 2 == 0 then White else Black
  }

  /** The report of makeMove for the side c that moves next on the board b. */
  function OutcomeOf(b: Cells, c: Color): Outcome
  {
    if !Rules.TrappedKing(b, c) then Ongoing
    else if Rules.KingInDanger(b, c) then Checkmate(c)
    else Stalemate
  }

  /**
   * A non-empty list of valid moves belongs to the last square clicked: a piece of the
   * side to move, whose filtered moves the list is.
   */
  predicate Selected(b: Cells, turn: Color, clicked: Pos, validMoves: seq<Pos>)
  {
    validMoves != [] ==>
      var o := GetPiece(b, clicked.x, clicked.y);
      o.Some? && o.value.color == turn && validMoves == Rules.ValidMoves(b, o.value, true)
  }

  class GameOperation {
    const board: Board
    var validMoves: seq<Pos>
    var clicked: Pos
    var turn: Color
    var moves: seq<Move>
    var movesLen: int
    /** The promotion choices given for moves[..movesLen]; the source does not keep them. */
    ghost var choices: seq<int>

    /** The board shows the first n moves of the history replayed, with the side to move after them. */
    ghost predicate Shows(n: int)
      reads this, board, board.grid
    {
      && board.Valid()
      && 0 <= n <= |moves| && |choices| == n
      && board.cells == Replay(moves[..n], choices)
      && turn == TurnAfter(n)
    }

    /** The history invariant: the board shows the first movesLen moves of the history. */
    ghost predicate Valid()
      reads this, board, board.grid
    {
      Shows(movesLen)
    }

    /**
     * The selection invariant, Selected on the fields. The constructor and initializeGame
     * establish it, and squareClicked, backClicked and nextClicked preserve it, so it holds
     * between any two clicks. makeMove and its callers on their own do not keep it; each
     * public entry point that calls them empties validMoves afterwards.
     */
    ghost predicate Selection()
      reads this, board, board.grid
    {
      Selected(board.cells, turn, clicked, validMoves)
    }

    /** new GameOperation(): restartClicked on a fresh board; clicked starts as {0, 0}. */
    constructor()
      ensures Valid() && fresh(board) && fresh(board.grid)
      ensures board.cells == DefaultBoard() && turn == White && moves == [] && movesLen == 0
      ensures validMoves == [] && clicked == Pos(0, 0)
      ensures Selection()
    {
      board := new Board();
      validMoves := [];
      clicked := Pos(0, 0);
      turn := White;
      moves := [];
      movesLen := 0;
      choices := [];
      new;
      InitializeGame();
    }

    /** initializeGame: the starting position, an empty history, White to move. */
    method InitializeGame()
      requires board.Valid()
      modifies this, board, board.grid
      ensures Valid() && board.cells == DefaultBoard()
      ensures validMoves == [] && turn == White && moves == [] && movesLen == 0 && choices == []
      ensures clicked == old(clicked)
      ensures Selection()
    {
      board.SetDefaultBoard();
      validMoves := [];
      turn := White;
      moves := [];
      movesLen := 0;
      choices := [];
    }

    /** correctMove: the square is one of the valid moves of the piece last selected. */
    method CorrectMove(x: int, y: int) returns (found: bool)
      ensures found <==> Pos(x, y) in validMoves
    {
      for i := 0 to |validMoves|
        invariant forall j :: 0 <= j < i ==> validMoves[j] != Pos(x, y)
      {
        if validMoves[i].x == x && validMoves[i].y == y {
          return true;
        }
      }
      return false;
    }

    /**
     * updateMoveHistory: drop the undone moves after the first movesLen, then record the
     * move from the last square clicked.
     */
    method UpdateMoveHistory(x: int, y: int)
      requires 0 <= movesLen <= |moves|
      modifies this
      ensures moves == old(moves[..movesLen]) + [Move(clicked.x, clicked.y, x, y)]
      ensures movesLen == old(movesLen) + 1 == |moves|
      ensures validMoves == old(validMoves) && clicked == old(clicked) && turn == old(turn)
      ensures choices == old(choices)
    {
      while |moves| > movesLen
        invariant movesLen == old(movesLen) <= |moves| <= |old(moves)|
        invariant moves == old(moves)[..|moves|]
        invariant validMoves == old(validMoves) && clicked == old(clicked) && turn == old(turn)
        invariant choices == old(choices)
        decreases |moves|
      {
        moves := moves[..|moves| - 1];
      }
      moves := moves + [Move(clicked.x, clicked.y, x, y)];
      movesLen := movesLen + 1;
    }

    /**
     * makeMove: hand the turn over, move the piece from the last square clicked, report
     * checkmate or stalemate of the side now to move, then promote the pawn coronation finds.
     */
    method MakeMove(x: int, y: int, choice: int) returns (outcome: Outcome)
      requires board.Valid()
      modifies this, board, board.grid
      ensures board.Valid()
      ensures board.cells == Play(old(board.cells), Move(clicked.x, clicked.y, x, y), choice)
      ensures turn == Opposite(old(turn))
      ensures outcome == OutcomeOf(MovePiece(old(board.cells), clicked.x, clicked.y, x, y), turn)
      ensures validMoves == old(validMoves) && clicked == old(clicked)
      ensures moves == old(moves) && movesLen == old(movesLen) && choices == old(choices)
    {
      turn := if turn == White then Black else White;
      board.MovePiece(clicked.x, clicked.y, x, y);
      outcome := Ongoing;
      var trapped := Engine.TrappedKing(board, turn);
      if trapped {
        var danger := Engine.KingInDanger(board, turn);
        outcome := if danger then Checkmate(turn) else Stalemate;
      }
      var pawn := Engine.Coronation(board);
      if pawn.Some? {
        Coronation(pawn.value, choice);
      }
    }

    /** coronation: the piece chosen in the dialog takes the square of the pawn. */
    method Coronation(pawn: Piece, choice: int)
      requires board.Valid()
      modifies board, board.grid
      ensures board.Valid() && board.cells == AddPiece(old(board.cells), Promoted(pawn, choice))
    {
      var piece: Piece;
      if choice == 1 {
        piece := Make(Knight, pawn.x, pawn.y, pawn.color, false, false);
      } else if choice == 2 {
        piece := Make(Rook, pawn.x, pawn.y, pawn.color, true, false);
      } else if choice == 3 {
        piece := Make(Bishop, pawn.x, pawn.y, pawn.color, false, false);
      } else {
        piece := Make(Queen, pawn.x, pawn.y, pawn.color, false, false);
      }
      board.AddPiece(piece);
    }

    /** The move branch of squareClicked: updateMoveHistory, then makeMove. */
    method Advance(x: int, y: int, choice: int) returns (outcome: Outcome)
      requires Valid()
      modifies this, board, board.grid
      ensures Valid()
      ensures var m := Move(clicked.x, clicked.y, x, y);
              && moves == old(moves[..movesLen]) + [m] && movesLen == old(movesLen) + 1
              && board.cells == Play(old(board.cells), m, choice)
              && outcome == OutcomeOf(MovePiece(old(board.cells), m.fromX, m.fromY, m.toX, m.toY), turn)
      ensures validMoves == old(validMoves) && clicked == old(clicked)
    {
      UpdateMoveHistory(x, y);
      ghost var before := moves[..movesLen - 1];
      assert moves[..movesLen] == before + [moves[movesLen - 1]];
      outcome := MakeMove(x, y, choice);
      ReplayStep(before, choices, moves[movesLen - 1], choice);
      choices := choices + [choice];
      TurnAlternates(movesLen - 1);
    }

    /**
     * squareClicked (board coordinates): a piece of the side to move is selected and its
     * filtered moves become the valid moves; any other square is played when it is one of
     * them, and clears them. The square becomes the last one clicked.
     */
    method SquareClicked(x: int, y: int, choice: int) returns (report: Option<Outcome>)
      requires Valid() && Selection()
      modifies this, board, board.grid
      ensures Valid() && Selection() && clicked == Pos(x, y)
      ensures var o := GetPiece(old(board.cells), x, y);
              if o.Some? && o.value.color == old(turn) then
                && report == None && validMoves == Rules.ValidMoves(old(board.cells), o.value, true)
                && board.cells == old(board.cells) && moves == old(moves) && movesLen == old(movesLen)
              else if Pos(x, y) in old(validMoves) then
                && report == Some(OutcomeOf(MovePiece(old(board.cells), old(clicked).x, old(clicked).y, x, y), turn))
                && validMoves == []
                && moves == old(moves[..movesLen]) + [Move(old(clicked).x, old(clicked).y, x, y)]
                && movesLen == old(movesLen) + 1
                && board.cells == Play(old(board.cells), Move(old(clicked).x, old(clicked).y, x, y), choice)
              else
                && report == None && validMoves == []
                && board.cells == old(board.cells) && moves == old(moves) && movesLen == old(movesLen)
      ensures report.Some? ==>
                var o := GetPiece(old(board.cells), old(clicked).x, old(clicked).y);
                && o.Some? && o.value.color == old(turn)
                && Pos(x, y) in Rules.ValidMoves(old(board.cells), o.value, true)
    {
      var possibleMove := true;
      var piece := board.GetPiece(x, y);
      if piece.Some? {
        if piece.value.color == turn {
          possibleMove := false;
          validMoves := Engine.ValidMoves(board, piece.value, true);
        }
      }
      report := None;
      if possibleMove {
        var correct := CorrectMove(x, y);
        if correct {
          var outcome := Advance(x, y, choice);
          report := Some(outcome);
        }
        validMoves := [];
      }
      clicked := Pos(x, y);
    }

    /**
     * The body of the loop of backClicked and of nextClicked: click the square of the history
     * entry i, then makeMove to its target.
     */
    method Redo(i: int, choice: int) returns (outcome: Outcome)
      requires Shows(i) && i < |moves|
      modifies this, board, board.grid
      ensures Shows(i + 1) && choices == old(choices) + [choice]
      ensures var m := moves[i];
              && board.cells == Play(old(board.cells), m, choice) && clicked == Pos(m.fromX, m.fromY)
              && outcome == OutcomeOf(MovePiece(old(board.cells), m.fromX, m.fromY, m.toX, m.toY), turn)
      ensures moves == old(moves) && movesLen == old(movesLen) && validMoves == old(validMoves)
    {
      clicked := Pos(moves[i].fromX, moves[i].fromY);
      outcome := MakeMove(moves[i].toX, moves[i].toY, choice);
      ReplayNext(moves, choices, i, choice);
      TurnAlternates(i);
      choices := choices + [choice];
    }

    /**
     * backClicked: with a move to undo, restart and replay the first movesLen - 1 moves of
     * the history, which is kept for redo; the coronation dialog is asked again during the
     * replay, the i-th time answered by ChoiceAt(replayChoices, i).
     */
    method BackClicked(replayChoices: seq<int>)
      requires Valid()
      modifies this, board, board.grid
      ensures Valid() && moves == old(moves)
      ensures old(movesLen) <= 0 ==>
                && board.cells == old(board.cells) && movesLen == old(movesLen)
                && validMoves == old(validMoves) && clicked == old(clicked)
      ensures old(movesLen) > 0 ==>
                && movesLen == old(movesLen) - 1 && validMoves == []
                && choices == Answers(replayChoices, movesLen)
                && clicked == (if movesLen == 0 then old(clicked) else Pos(moves[movesLen - 1].fromX, moves[movesLen - 1].fromY))
      ensures old(movesLen) > 0 || old(Selection()) ==> Selection()
    {
      var aux := movesLen - 1;
      var aux2 := moves;
      if movesLen <= 0 {
        return;
      }
      InitializeGame();
      movesLen := aux;
      moves := aux2;
      ReplayHistory(replayChoices);
    }

    /** The loop of backClicked: replay the first movesLen moves of the history on the starting position. */
    method ReplayHistory(replayChoices: seq<int>)
      requires Shows(0) && 0 <= movesLen <= |moves|
      modifies this, board, board.grid
      ensures Valid() && choices == Answers(replayChoices, movesLen)
      ensures clicked == (if movesLen == 0 then old(clicked) else Pos(moves[movesLen - 1].fromX, moves[movesLen - 1].fromY))
      ensures moves == old(moves) && movesLen == old(movesLen) && validMoves == old(validMoves)
    {
      var i := 0;
      while i < movesLen
        invariant 0 <= i <= movesLen && Shows(i)
        invariant moves == old(moves) && movesLen == old(movesLen) && validMoves == old(validMoves)
        invariant choices == Answers(replayChoices, i)
        invariant clicked == (if i == 0 then old(clicked) else Pos(moves[i - 1].fromX, moves[i - 1].fromY))
      {
        var _ := Redo(i, ChoiceAt(replayChoices, i));
        i := i + 1;
      }
    }

    /** nextClicked: with an undone move left, replay moves[movesLen] and count it. */
    method NextClicked(choice: int) returns (report: Option<Outcome>)
      requires Valid()
      modifies this, board, board.grid
      ensures Valid() && moves == old(moves)
      ensures old(movesLen) >= |old(moves)| ==>
                && report == None && board.cells == old(board.cells) && movesLen == old(movesLen)
                && validMoves == old(validMoves) && clicked == old(clicked)
      ensures old(movesLen) < |old(moves)| ==>
                var m := moves[old(movesLen)];
                && report.Some? && movesLen == old(movesLen) + 1 && validMoves == []
                && board.cells == Play(old(board.cells), m, choice) && clicked == Pos(m.fromX, m.fromY)
                && choices == old(choices) + [choice]
                && report == Some(OutcomeOf(MovePiece(old(board.cells), m.fromX, m.fromY, m.toX, m.toY), turn))
      ensures old(movesLen) < |old(moves)| || old(Selection()) ==> Selection()
    {
      if movesLen >= |moves| {
        return None;
      }
      var outcome := Redo(movesLen, choice);
      movesLen := movesLen + 1;
      validMoves := [];
      report := Some(outcome);
    }
  }

  // ---------------------------------------------------------------------------------------
  // Properties of the history
  // ---------------------------------------------------------------------------------------

  /** Replaying one more move plays it on the board the shorter replay gives. */
  lemma ReplayStep(moves: seq<Move>, choices: seq<int>, m: Move, choice: int)
    requires |choices| == |moves|
    ensures Replay(moves + [m], choices + [choice]) == Play(Replay(moves, choices), m, choice)
  {
    var n := |moves|;
    assert (moves + [m])[..n] == moves;
    assert (choices + [choice])[..n] == choices;
  }

  /** Replaying one more move of a history: the step of redo and nextClicked. */
  lemma ReplayNext(moves: seq<Move>, choices: seq<int>, n: nat, choice: int)
    requires n < |moves| && |choices| == n
    ensures Replay(moves[..n + 1], choices + [choice]) == Play(Replay(moves[..n], choices), moves[n], choice)
  {
    assert moves[..n + 1] == moves[..n] + [moves[n]];
    ReplayStep(moves[..n], choices, moves[n], choice);
  }

  /** The turn alternates with every move. */
  lemma TurnAlternates(n: int)
    ensures TurnAfter(n + 1) == Opposite(TurnAfter(n))
  {
  }

  /** makeMove keeps every piece on its own square and well formed. */
  lemma PlayKeepsConsistent(b: Cells, m: Move, choice: int)
    requires Consistent(b)
    ensures Consistent(Play(b, m, choice))
  {
    var moved := MovePiece(b, m.fromX, m.fromY, m.toX, m.toY);
    BoardFacts.MoveKeepsConsistent(b, m.fromX, m.fromY, m.toX, m.toY);
    if Rules.Coronation(moved).Some? {
      BoardFacts.AddRemoveKeepConsistent(moved, Promoted(Rules.Coronation(moved).value, choice));
    }
  }

  /** Every board the history can show is consistent. */
  lemma {:induction false} ReplayConsistent(moves: seq<Move>, choices: seq<int>)
    requires |choices| == |moves|
    ensures Consistent(Replay(moves, choices))
    decreases |moves|
  {
    if moves == [] {
      BoardFacts.DefaultBoardFacts();
    } else {
      var n := |moves| - 1;
      ReplayConsistent(moves[..n], choices[..n]);
      PlayKeepsConsistent(Replay(moves[..n], choices[..n]), moves[n], choices[n]);
    }
  }

  /**
   * backClicked then nextClicked, the undone move answered as it was first: the game is back
   * where it was, with the same board, history, position in it and side to move.
   */
  method UndoThenRedo(g: GameOperation, answers: seq<int>)
    requires g.Valid() && g.movesLen > 0 && answers == g.choices
    modifies g, g.board, g.board.grid
    ensures g.Valid() && g.board.cells == old(g.board.cells) && g.turn == old(g.turn)
    ensures g.moves == old(g.moves) && g.movesLen == old(g.movesLen) && g.choices == old(g.choices)
  {
    ghost var cells := g.board.cells;
    var n := g.movesLen;
    g.BackClicked(answers);
    AnswersPrefix(answers, n - 1);
    NextInHistory(g, answers[n - 1]);
    assert g.choices == answers[..n - 1] + [answers[n - 1]] == answers;
    assert g.board.cells == Replay(g.moves[..n], answers) == cells;
  }

  /**
   * nextClicked then backClicked, the earlier moves answered as they were: the redone move is
   * taken back and the game is where it was.
   */
  method RedoThenUndo(g: GameOperation, choice: int, answers: seq<int>)
    requires g.Valid() && g.movesLen < |g.moves| && answers == g.choices
    modifies g, g.board, g.board.grid
    ensures g.Valid() && g.board.cells == old(g.board.cells) && g.turn == old(g.turn)
    ensures g.moves == old(g.moves) && g.movesLen == old(g.movesLen) && g.choices == old(g.choices)
  {
    ghost var cells, n := g.board.cells, g.movesLen;
    NextInHistory(g, choice);
    g.BackClicked(answers);
    AnswersPrefix(answers, n);
    assert g.board.cells == Replay(g.moves[..n], answers) == cells;
  }

  /** nextClicked seen from the history: one more move of it counted, with its answer. */
  method NextInHistory(g: GameOperation, choice: int)
    requires g.Valid() && g.movesLen < |g.moves|
    modifies g, g.board, g.board.grid
    ensures g.Valid() && g.moves == old(g.moves) && g.turn == TurnAfter(g.movesLen)
    ensures g.movesLen == old(g.movesLen) + 1 && g.choices == old(g.choices) + [choice]
  {
    var _ := g.NextClicked(choice);
  }

  /** The answers of a replay as long as the answers given are those answers. */
  lemma AnswersPrefix(answers: seq<int>, n: nat)
    requires n <= |answers|
    ensures Answers(answers, n) == answers[..n]
  {
  }

  /**
   * The pawn coronation finds is the one replaced: afterwards its square holds the promoted
   * piece and every other square is unchanged; without a pawn on a last rank nothing changes.
   */
  lemma PromotionReplacesPawn(b: Cells, choice: int)
    ensures Rules.Coronation(b).None? ==> Promotion(b, choice) == b
    ensures Rules.Coronation(b).Some? ==>
              var pawn := Rules.Coronation(b).value;
              && GetPiece(Promotion(b, choice), pawn.x, pawn.y) == Some(Promoted(pawn, choice))
              && forall x: Coord, y: Coord :: (x, y) != (pawn.x, pawn.y) ==>
                   GetPiece(Promotion(b, choice), x, y) == GetPiece(b, x, y)
  {
    if Rules.Coronation(b).Some? {
      var pawn := Rules.Coronation(b).value;
      forall x: Coord, y: Coord
        ensures GetPiece(Promotion(b, choice), x, y)
                == (if (x, y) == (pawn.x, pawn.y) then Some(Promoted(pawn, choice)) else GetPiece(b, x, y))
      {
        BoardFacts.GetAfterAdd(b, Promoted(pawn, choice), x, y);
      }
    }
  }

  /**
   * The report of makeMove: checkmate of c exactly when no piece of c has a filtered move
   * and the king getKing finds for c is attacked; stalemate when none has a move and it is not.
   */
  lemma OutcomeExact(b: Cells, c: Color)
    ensures OutcomeOf(b, c) == Checkmate(c) <==>
              && RulesTheorems.NoneCanMove(b, c, 0) && GetKing(b, c).Some?
              && RulesTheorems.AttackedFrom(b, c, Pos(GetKing(b, c).value.x, GetKing(b, c).value.y), 0)
    ensures OutcomeOf(b, c) == Stalemate <==>
              && RulesTheorems.NoneCanMove(b, c, 0)
              && !(GetKing(b, c).Some? && RulesTheorems.AttackedFrom(b, c, Pos(GetKing(b, c).value.x, GetKing(b, c).value.y), 0))
    ensures OutcomeOf(b, c) == Ongoing <==> !RulesTheorems.NoneCanMove(b, c, 0)
  {
    RulesTheorems.TrappedKingExact(b, c);
    RulesTheorems.KingInDangerExact(b, c);
  }
}
