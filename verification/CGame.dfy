/** The C program's game: the same rules with a differently written row loop, and a move
    that looks for the end of the game before the new tile appears. */
module CGame {
  import opened SlideSpec
  import opened BoardSpec
  import opened GameTheory
  import opened LateAnswer
  import opened Movable
  import opened Grid
  import opened Turned

  predicate DirectionKey(d: char) {
    d == 'h' || d == 'k' || d == 'l' || d == 'j'
  }

  function KeyDirection(d: char): Direction
    requires DirectionKey(d)
  {
    if d == 'h' then Left else if d == 'k' then Up else if d == 'l' then Right else Down
  }

  class State {
    const n: nat
    const board: array2<int>
    var blankNum: int
    var score: int
    var moved: bool
    ghost var history: History

    predicate Shaped() {
      n >= 2 && board.Length0 == n && board.Length1 == n
    }

    ghost function View(): (s: Snapshot)
      requires Shaped()
      reads this, board
      ensures Square(s.board, n)
    {
      Snapshot(Cells(board), blankNum, score, moved)
    }

    /** The fields are what replaying the game so far gives. */
    ghost predicate Valid()
      reads this, board
    {
      Shaped() && Legal(history, n) && View() == Replay(history, n)
    }

    /** A game being played: at least one tile has appeared. */
    ghost predicate Playing()
      reads this, board
    {
      Valid() && Spawns(history) > 0
    }

    constructor (side: nat)
      requires side >= 2
      ensures Playing() && n == side && fresh(board)
      ensures history.Spawned? && history.prev.Spawned? && history.prev.prev == Empty && Followed(history, n)
    {
      n := side;
      board := new int[side, side]((_, _) => 0);
      blankNum := side * side;
      moved := false;
      score := 0;
      history := Empty;
      new;
      CellsAre(board, EmptyBoard(side));
      assert blankNum != 0;
      Spawn();
      EveryGame(history, n);
      assert blankNum == side * side - 1;
      assert side * side >= 4 by { Scale(side, 2, side); }
      Spawn();
    }

    /** A blank position, already taken off the counter, or -1 when the counter is 0. */
    method GetNextValuePos() returns (pos: int)
      requires Valid()
      modifies this`blankNum
      ensures pos == -1 <==> old(blankNum) == 0
      ensures pos == -1 ==> blankNum == old(blankNum)
      ensures pos != -1 ==> blankNum == old(blankNum) - 1
      ensures pos != -1 ==> 0 <= pos < n * n && CellAt(Cells(board), n, pos) == 0
    {
      hide Total, CellAt, Replay, Legal, Put, Cells, BlankPosition;
      if blankNum == 0 {
        return -1;
      }
      EveryGame(history, n);
      BlankToDraw(board, n);
      var p: nat :| p < n * n && BlankPosition(board, n, p);
      BlankPositionIsBlank(board, n, p);
      blankNum := blankNum - 1;
      return p;
    }

    /** A new tile.  The position is used without looking at it, so it must not be -1. */
    method Spawn()
      requires Valid() && blankNum != 0
      modifies this`blankNum, this`history, board
      ensures Valid()
      ensures history.Spawned? && history.prev == old(history)
      ensures history.pos < n * n && CellAt(old(Cells(board)), n, history.pos) == 0
      ensures Cells(board) == Put(old(Cells(board)), n, history.pos, history.value)
      ensures history.value == 2 || history.value == 4
    {
      hide Total, CellAt, Replay, Legal, Put, Cells;
      var pos := GetNextValuePos();
      var value := 2;
      if * {
        value := 4;
      }
      SpawnStep(history, n, pos, value);
      SetCell(board, n, pos, value);
      history := Spawned(history, pos, value);
    }

    /** One row, with the loop that jumps over blanks and the two copies of the move. */
    method SlideRowInPlace(k: nat)
      requires Shaped() && k < n
      modifies this`score, this`blankNum, this`moved, board
      ensures Cells(board) == old(Cells(board))[k := SlideRow(old(Cells(board))[k])]
      ensures score == old(score) + RowGain(old(Cells(board))[k])
      ensures blankNum == old(blankNum) + RowFreed(old(Cells(board))[k])
      ensures moved == (old(moved) || SlideRow(old(Cells(board))[k]) != old(Cells(board))[k])
    {
      hide Sliding, SlideRow, RowGain, RowFreed, Cells;
      ghost var b := Cells(board);
      ghost var orig := b[k];
      ghost var line := orig;
      ghost var changed := false;
      SlidingStart(orig);
      var i, j := 0, 1;
      while j < n
        invariant 0 <= i < j <= n == |line|
        invariant Sliding(orig, line, i, j, score - old(score), blankNum - old(blankNum), changed)
        invariant moved == (old(moved) || changed)
        invariant Cells(board) == b[k := line]
        decreases n - j
      {
        ghost var gain, freed := score - old(score), blankNum - old(blankNum);
        while j < n - 1 && board[k, j] == 0
          invariant i < j < n
          invariant Sliding(orig, line, i, j, gain, freed, changed)
          modifies {}
        {
          SlidingSkip(orig, line, i, j, gain, freed, changed);
          j := j + 1;
        }
        ghost var blank := board[k, j] == 0;
        if board[k, i] == 0 {
          if blank {
            SlidingSkip(orig, line, i, j, gain, freed, changed);
            PullBlank(line, i, j);
          } else {
            SlidingMove(orig, line, i, j, gain, freed, changed);
          }
          line := line[i := line[j]][j := 0];
          if board[k, i] != board[k, j] {
            moved, changed := true, true;
          }
          Pull(board, k, i, j);
        } else if board[k, i] == board[k, j] {
          ghost var after := line[i := line[i] + line[j]][j := 0];
          SlidingMerge(orig, line, after, i, j, gain, freed, changed);
          line := after;
          Combine(board, k, i, j);
          blankNum := blankNum + 1;
          score := score + board[k, i];
          moved, changed := true, true;
          i := i + 1;
        } else {
          if blank {
            SlidingLastBlank(orig, line, i, j, gain, freed, changed);
          } else {
            SlidingNext(orig, line, i, j, gain, freed, changed);
          }
          i := i + 1;
          if board[k, i] == 0 {
            if !blank {
              SlidingMove(orig, line, i, j, gain, freed, changed);
            } else {
              PullBlank(line, i, j);
            }
            line := line[i := line[j]][j := 0];
            if board[k, i] != board[k, j] {
              moved, changed := true, true;
            }
            Pull(board, k, i, j);
          }
        }
        j := j + 1;
      }
      SlidingDone(orig, line, i, score - old(score), blankNum - old(blankNum), changed);
    }

    method MoveLeft()
      requires Shaped()
      modifies this`score, this`blankNum, this`moved, this`history, board
      ensures View() == AfterMove(old(View()), n, Left)
      ensures history == Moved(old(history), Left)
      ensures old(Valid()) ==> Valid()
    {
      hide SlideRow, RowGain, RowFreed, Cells;
      ghost var s0 := View();
      moved := false;
      assert LeftProgress(s0, View(), n, 0);
      var k := 0;
      while k < n
        invariant 0 <= k <= n
        invariant LeftProgress(s0, View(), n, k)
        invariant history == old(history)
      {
        ghost var s := View();
        SlideRowInPlace(k);
        LeftProgressStep(s0, s, View(), n, k);
        k := k + 1;
      }
      LeftProgressDone(s0, View(), n);
      history := Moved(history, Left);
    }

    method MoveUp()
      requires Shaped()
      modifies this`score, this`blankNum, this`moved, this`history, board
      ensures View() == AfterMove(old(View()), n, Up)
      ensures history == Moved(old(history), Up)
      ensures old(Valid()) ==> Valid()
    {
      MoveByTurning(View(), n, Up);
      Transpose(board);
      MoveLeft();
      Transpose(board);
      history := Moved(old(history), Up);
    }

    method MoveRight()
      requires Shaped()
      modifies this`score, this`blankNum, this`moved, this`history, board
      ensures View() == AfterMove(old(View()), n, Right)
      ensures history == Moved(old(history), Right)
      ensures old(Valid()) ==> Valid()
    {
      MoveByTurning(View(), n, Right);
      Mirror(board);
      MoveLeft();
      Mirror(board);
      history := Moved(old(history), Right);
    }

    method MoveDown()
      requires Shaped()
      modifies this`score, this`blankNum, this`moved, this`history, board
      ensures View() == AfterMove(old(View()), n, Down)
      ensures history == Moved(old(history), Down)
      ensures old(Valid()) ==> Valid()
    {
      MoveDownByTurning(View(), n);
      Transpose(board);
      MoveRight();
      Transpose(board);
      history := Moved(old(history), Down);
    }

    method Moveable() returns (r: bool)
      requires Shaped()
      ensures r <==> CanMove(Cells(board), n)
    {
      r := Scan(board);
    }

    /** One key.  A 0 means the board is unchanged and no direction would change it; when
        the board did change there is room for the new tile.  Any other answer is given
        before that tile appears: it is right about the board left behind unless the tile
        has taken the last chance away. */
    method Move(d: char) returns (goOn: bool)
      requires Playing() && DirectionKey(d)
      modifies this`score, this`blankNum, this`moved, this`history, board
      ensures Playing()
      ensures !goOn ==> Cells(board) == old(Cells(board)) && score == old(score) && blankNum == old(blankNum)
      ensures !goOn ==> history == Moved(old(history), KeyDirection(d))
      ensures !goOn <==> !CanMove(SlideBoard(old(Cells(board)), n, KeyDirection(d)), n)
      ensures goOn ==>
        if SlideBoard(old(Cells(board)), n, KeyDirection(d)) != old(Cells(board))
        then history.Spawned? && history.prev == Moved(old(history), KeyDirection(d))
        else history == Moved(old(history), KeyDirection(d))
      ensures !goOn ==> !AnyMove(Cells(board), n)
      ensures goOn ==>
        var slid := SlideBoard(old(Cells(board)), n, KeyDirection(d));
        if slid == old(Cells(board)) then AnyMove(Cells(board), n)
        else
          && history.pos < n * n && CellAt(slid, n, history.pos) == 0 && (history.value == 2 || history.value == 4)
          && Cells(board) == Put(slid, n, history.pos, history.value)
          && (AnyMove(Cells(board), n) <==> KeepsMoving(slid, n, history.pos, history.value))
      ensures d == 'h' ==>
        Played(old(history), history, Left, SlideBoard(old(Cells(board)), n, Left) != old(Cells(board)))
      ensures d == 'k' ==>
        Played(old(history), history, Up, SlideBoard(old(Cells(board)), n, Up) != old(Cells(board)))
      ensures d == 'l' ==>
        Played(old(history), history, Right, SlideBoard(old(Cells(board)), n, Right) != old(Cells(board)))
      ensures d == 'j' ==>
        Played(old(history), history, Down, SlideBoard(old(Cells(board)), n, Down) != old(Cells(board)))
      ensures old(Followed(history, n)) ==> Followed(history, n)
    {
      hide Replay, Legal, SlideBoard, Total, CanMove, HasBlank, RowsGain, RowsFreed, KeepsMoving, CellAt, Put, Followed,
        AnyMove, HasTile;
      if Followed(history, n) {
        FollowedStep(history, n, KeyDirection(d));
      }
      match d {
        case 'h' => MoveLeft();
        case 'k' => MoveUp();
        case 'l' => MoveRight();
        case _ => MoveDown();
      }
      goOn := Moveable();
      if moved {
        MovedCanMove(old(View()), n, KeyDirection(d));
      }
      SpawnedHasTile(history, n);
      CanMoveIff(Cells(board), n);
      if !goOn {
        UnmovedCounts(old(View()), n, KeyDirection(d));
        return;
      }
      if moved {
        EveryGame(history, n);
        BlankCounter(Cells(board), n);
        ghost var slid := Cells(board);
        Spawn();
        SpawnKeepsMoving(slid, n, history.pos, history.value);
        SpawnedHasTile(history, n);
        CanMoveIff(Cells(board), n);
      }
    }
  }

  lemma MovedCanMove(s: Snapshot, n: nat, d: Direction)
    requires Square(s.board, n) && AfterMove(s, n, d).moved
    ensures CanMove(AfterMove(s, n, d).board, n) && HasBlank(AfterMove(s, n, d).board)
  {
    MoveLeavesBlank(s.board, n, d);
  }

  lemma {:induction false} SettledCounts(rows: Board)
    requires forall k :: 0 <= k < |rows| ==> SlideRow(rows[k]) == rows[k]
    ensures RowsGain(rows) == 0 && RowsFreed(rows) == 0
  {
    if rows != [] {
      SettledGain(rows[0]);
      SettledCounts(rows[1..]);
    }
  }

  lemma SettledGain(line: seq<int>)
    requires SlideRow(line) == line
    ensures RowGain(line) == 0 && RowFreed(line) == 0
  {
    SlideKeepsTiles(line);
    UnmergedGain(Tiles(line));
  }

  lemma {:induction false} UnmergedGain(t: seq<int>)
    requires Merge(t) == t
    ensures MergeGain(t) == 0
  {
    if |t| >= 2 {
      MergeUnchanged(t);
      assert t[1-1] != t[1];
      assert Merge(t[1..]) == Merge(t)[1..];
      UnmergedGain(t[1..]);
    }
  }

  /** A move that changes no cell changes no counter. */
  lemma UnmovedCounts(s: Snapshot, n: nat, d: Direction)
    requires Square(s.board, n) && !AfterMove(s, n, d).moved
    ensures AfterMove(s, n, d) == s.(moved := false)
  {
    SlideBoardChanges(s.board, n, d);
    SettledCounts(Lines(s.board, n, d));
  }
}
