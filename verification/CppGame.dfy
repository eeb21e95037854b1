/** The C++ program's game object.  The board side is a parameter here; the program
    fixes it at 4. */
module CppGame {
  import opened SlideSpec
  import opened BoardSpec
  import opened GameTheory
  import opened Movable
  import opened Grid
  import opened Turned

  predicate DirectionKey(d: char) {
    d == 'a' || d == 'w' || d == 'd' || d == 's'
  }

  function KeyDirection(d: char): Direction
    requires DirectionKey(d)
  {
    if d == 'a' then Left else if d == 'w' then Up else if d == 'd' then Right else Down
  }

  /** What pressing a key does before a tile appears; other keys do nothing. */
  function Pressed(h: History, d: char): History {
    if DirectionKey(d) then Moved(h, KeyDirection(d)) else h
  }

  /** The value that appears in a cell: 2 in odd cells, 4 in even ones. */
  function SpawnValue(pos: nat): int {
    if pos % 2 != 0 then 2 else 4
  }

  class Game {
    const n: nat
    const board: array2<int>
    var blankNum: int
    var score: int
    var moved: bool
    ghost var history: History

    predicate Shaped() {
      n >= 2 && board.Length0 == n && board.Length1 == n
    }

    ghost function View(): (s: Snapshot)
      requires Shaped()
      reads this, board
      ensures Square(s.board, n)
    {
      Snapshot(Cells(board), blankNum, score, moved)
    }

    /** The fields are what replaying the game so far gives. */
    ghost predicate Valid()
      reads this, board
    {
      Shaped() && Legal(history, n) && View() == Replay(history, n)
    }

    /** A game being played: at least one tile has appeared. */
    ghost predicate Playing()
      reads this, board
    {
      Valid() && Spawns(history) > 0
    }

    constructor (side: nat)
      requires side >= 2
      ensures Playing() && n == side && fresh(board)
      ensures history.Spawned? && history.prev.Spawned? && history.prev.prev == Empty && Followed(history, n)
      ensures history.value == SpawnValue(history.pos) && history.prev.value == SpawnValue(history.prev.pos)
      ensures history.value == if history.pos % 2 == 1 then 2 else 4
      ensures history.prev.value == if history.prev.pos % 2 == 1 then 2 else 4
    {
      n := side;
      board := new int[side, side]((_, _) => 0);
      blankNum := side * side;
      score := 0;
      moved := false;
      history := Empty;
      new;
      CellsAre(board, EmptyBoard(side));
      var ok := GenerateNextChunk();
      ok := GenerateNextChunk();
    }

    /** A tile appears in a blank cell, unless the counter says there is none.  The draw
        repeats until it hits a blank cell, so any blank cell may come out. */
    method GenerateNextChunk() returns (ok: bool)
      requires Valid()
      modifies this`blankNum, this`history, board
      ensures Valid()
      ensures ok <==> old(blankNum) != 0
      ensures !ok ==> history == old(history)
      ensures ok ==> history.Spawned? && history.prev == old(history) && history.value == SpawnValue(history.pos)
      ensures ok ==> history.value == if history.pos % 2 == 1 then 2 else 4
    {
      hide Total, CellAt, Replay, Legal, Put, Cells, BlankPosition;
      if blankNum == 0 {
        return false;
      }
      EveryGame(history, n);
      BlankToDraw(board, n);
      var pos: nat :| pos < n * n && BlankPosition(board, n, pos);
      BlankPositionIsBlank(board, n, pos);
      SpawnStep(history, n, pos, SpawnValue(pos));
      blankNum := blankNum - 1;
      SetCell(board, n, pos, if pos % 2 != 0 then 2 else 4);
      history := Spawned(history, pos, SpawnValue(pos));
      return true;
    }

    /** One row, compacted and merged in place. */
    method SlideRowInPlace(k: nat)
      requires Shaped() && k < n
      modifies this`score, this`blankNum, this`moved, board
      ensures Cells(board) == old(Cells(board))[k := SlideRow(old(Cells(board))[k])]
      ensures score == old(score) + RowGain(old(Cells(board))[k])
      ensures blankNum == old(blankNum) + RowFreed(old(Cells(board))[k])
      ensures moved == (old(moved) || SlideRow(old(Cells(board))[k]) != old(Cells(board))[k])
    {
      hide Sliding, SlideRow, RowGain, RowFreed, Cells;
      ghost var b := Cells(board);
      ghost var orig := b[k];
      ghost var line := orig;
      ghost var changed := false;
      SlidingStart(orig);
      var i, j := 0, 1;
      while j < n
        invariant 0 <= i < j <= n == |line|
        invariant Sliding(orig, line, i, j, score - old(score), blankNum - old(blankNum), changed)
        invariant moved == (old(moved) || changed)
        invariant Cells(board) == b[k := line]
        decreases n - j
      {
        ghost var gain, freed := score - old(score), blankNum - old(blankNum);
        if board[k, j] == 0 {
          SlidingSkip(orig, line, i, j, gain, freed, changed);
          j := j + 1;
          continue;
        }
        if board[k, i] == 0 {
          SlidingMove(orig, line, i, j, gain, freed, changed);
          line := line[i := line[j]][j := 0];
          Pull(board, k, i, j);
          moved, changed := true, true;
        } else if board[k, j] == board[k, i] {
          ghost var after := line[i := line[i] + line[j]][j := 0];
          SlidingMerge(orig, line, after, i, j, gain, freed, changed);
          line := after;
          Combine(board, k, i, j);
          score := score + board[k, i];
          blankNum := blankNum + 1;
          moved, changed := true, true;
          i := i + 1;
        } else {
          SlidingNext(orig, line, i, j, gain, freed, changed);
          i := i + 1;
          if board[k, i] == 0 {
            SlidingMove(orig, line, i, j, gain, freed, changed);
            line := line[i := line[j]][j := 0];
            Pull(board, k, i, j);
            moved, changed := true, true;
          }
        }
        j := j + 1;
      }
      SlidingDone(orig, line, i, score - old(score), blankNum - old(blankNum), changed);
    }

    method MoveLeft()
      requires Shaped()
      modifies this`score, this`blankNum, this`moved, this`history, board
      ensures View() == AfterMove(old(View()), n, Left)
      ensures history == Moved(old(history), Left)
      ensures old(Valid()) ==> Valid()
    {
      hide SlideRow, RowGain, RowFreed, Cells;
      ghost var s0 := View();
      moved := false;
      assert LeftProgress(s0, View(), n, 0);
      var k := 0;
      while k < n
        invariant 0 <= k <= n
        invariant LeftProgress(s0, View(), n, k)
        invariant history == old(history)
      {
        ghost var s := View();
        SlideRowInPlace(k);
        LeftProgressStep(s0, s, View(), n, k);
        k := k + 1;
      }
      LeftProgressDone(s0, View(), n);
      history := Moved(history, Left);
    }

    method MoveUp()
      requires Shaped()
      modifies this`score, this`blankNum, this`moved, this`history, board
      ensures View() == AfterMove(old(View()), n, Up)
      ensures history == Moved(old(history), Up)
      ensures old(Valid()) ==> Valid()
    {
      MoveByTurning(View(), n, Up);
      Transpose(board);
      MoveLeft();
      Transpose(board);
      history := Moved(old(history), Up);
    }

    method MoveRight()
      requires Shaped()
      modifies this`score, this`blankNum, this`moved, this`history, board
      ensures View() == AfterMove(old(View()), n, Right)
      ensures history == Moved(old(history), Right)
      ensures old(Valid()) ==> Valid()
    {
      MoveByTurning(View(), n, Right);
      Mirror(board);
      MoveLeft();
      Mirror(board);
      history := Moved(old(history), Right);
    }

    method MoveDown()
      requires Shaped()
      modifies this`score, this`blankNum, this`moved, this`history, board
      ensures View() == AfterMove(old(View()), n, Down)
      ensures history == Moved(old(history), Down)
      ensures old(Valid()) ==> Valid()
    {
      MoveDownByTurning(View(), n);
      Transpose(board);
      MoveRight();
      Transpose(board);
      history := Moved(old(history), Down);
    }

    method Movable() returns (r: bool)
      requires Shaped()
      ensures r <==> CanMove(Cells(board), n)
    {
      r := Scan(board);
    }

    /** One key: the move, then a tile if the board changed, then whether play goes on.
        After a direction key a changed board always has room for the tile. */
    method Move(d: char) returns (goOn: bool)
      requires Playing()
      modifies this`score, this`blankNum, this`moved, this`history, board
      ensures Playing()
      ensures DirectionKey(d) ==>
        var next := SlideBoard(old(View().board), n, KeyDirection(d));
        if next != old(View().board)
        then history.Spawned? && history.prev == Pressed(old(history), d) && history.value == SpawnValue(history.pos)
        else history == Pressed(old(history), d) && View().board == old(View().board)
      ensures !DirectionKey(d) ==> score == old(score)
      ensures !DirectionKey(d) ==>
        (history == old(history) || (old(moved) && history.Spawned? && history.prev == old(history)))
      ensures goOn <==> AnyMove(Cells(board), n)
      ensures d == 'a' ==>
        Played(old(history), history, Left, SlideBoard(old(View().board), n, Left) != old(View().board))
      ensures d == 'w' ==>
        Played(old(history), history, Up, SlideBoard(old(View().board), n, Up) != old(View().board))
      ensures d == 'd' ==>
        Played(old(history), history, Right, SlideBoard(old(View().board), n, Right) != old(View().board))
      ensures d == 's' ==>
        Played(old(history), history, Down, SlideBoard(old(View().board), n, Down) != old(View().board))
      ensures old(Followed(history, n)) ==> Followed(history, n)
    {
      hide Replay, Legal, SlideBoard, Total, CanMove, RowsGain, RowsFreed, Followed, AnyMove, HasTile;
      if DirectionKey(d) && Followed(history, n) {
        FollowedStep(history, n, KeyDirection(d));
      }
      match d {
        case 'a' => MoveLeft();
        case 'w' => MoveUp();
        case 'd' => MoveRight();
        case 's' => MoveDown();
        case _ =>
      }
      assert DirectionKey(d) ==> history == Pressed(old(history), d);
      if moved {
        if DirectionKey(d) {
          MoveLeavesBlank(old(View().board), n, KeyDirection(d));
          BlankCounter(Cells(board), n);
          EveryGame(history, n);
        }
        ghost var before := history;
        var ok := GenerateNextChunk();
        if !DirectionKey(d) && ok && Followed(before, n) {
          FollowedSpawn(before, n, history.pos, history.value);
        }
      }
      goOn := Movable();
      SpawnedHasTile(history, n);
      CanMoveIff(Cells(board), n);
    }
  }
}
