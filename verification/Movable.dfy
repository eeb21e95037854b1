/** When a game is over: the scan for a blank or an equal pair answers exactly whether
    some direction would change the board. */
module Movable {
  import opened SlideSpec
  import opened BoardSpec
  import opened GameTheory

  predicate EqualBeside(b: Board, n: nat, i: nat, j: nat)
    requires Square(b, n) && i < n && j < n
  {
    0 < j && b[i][j] == b[i][j-1]
  }

  predicate EqualAbove(b: Board, n: nat, i: nat, j: nat)
    requires Square(b, n) && i < n && j < n
  {
    0 < i && b[i][j] == b[i-1][j]
  }

  ghost predicate EqualPair(b: Board, n: nat)
    requires Square(b, n)
  {
    exists i, j :: 0 <= i < n && 0 <= j < n && (EqualBeside(b, n, i, j) || EqualAbove(b, n, i, j))
  }

  ghost predicate CanMove(b: Board, n: nat)
    requires Square(b, n)
  {
    HasBlank(b) || EqualPair(b, n)
  }

  /** Some direction changes the board. */
  ghost predicate AnyMove(b: Board, n: nat)
    requires Square(b, n)
  {
    exists d: Direction :: SlideBoard(b, n, d) != b
  }

  ghost predicate HasTile(b: Board) {
    exists i, j :: 0 <= i < |b| && 0 <= j < |b[i]| && b[i][j] != 0
  }

  ghost predicate AllSettled(b: Board, n: nat, d: Direction)
    requires Square(b, n)
  {
    forall k :: 0 <= k < n ==> Settled(Line(b, n, d, k))
  }

  lemma StuckLines(b: Board, n: nat, d: Direction)
    requires Square(b, n)
    ensures SlideBoard(b, n, d) == b <==> AllSettled(b, n, d)
  {
    SlideBoardChanges(b, n, d);
    forall k | 0 <= k < n
      ensures SlideRow(Line(b, n, d, k)) == Line(b, n, d, k) <==> Settled(Line(b, n, d, k))
    {
      SlideUnchanged(Line(b, n, d, k));
    }
  }

  /** In a settled line blanks are never followed by a tile. */
  lemma {:induction false} SettledBlank(line: seq<int>, i: nat, j: nat)
    requires Settled(line) && i <= j < |line| && line[i] == 0
    ensures line[j] == 0
  {
    if i < j {
      SettledBlank(line, i, j - 1);
    }
  }

  /** A line both directions keep is all blank or all tiles. */
  lemma BothSettled(line: seq<int>, back: seq<int>, i: nat, j: nat)
    requires Settled(line) && Settled(back) && |back| == |line| && i < |line| && j < |line|
    requires forall k :: 0 <= k < |line| ==> back[k] == line[|line| - 1 - k]
    requires line[i] == 0
    ensures line[j] == 0
  {
    if i <= j {
      SettledBlank(line, i, j);
    } else {
      assert back[|line| - 1 - i] == 0;
      SettledBlank(back, |line| - 1 - i, |line| - 1 - j);
    }
  }

  /** A board no direction changes is full, unless it is empty. */
  lemma StuckIsFull(b: Board, n: nat, i: nat, j: nat, i': nat, j': nat)
    requires Square(b, n) && i < n && j < n && i' < n && j' < n
    requires forall d: Direction :: SlideBoard(b, n, d) == b
    requires b[i][j] == 0
    ensures b[i'][j'] == 0
  {
    forall d: Direction ensures AllSettled(b, n, d) {
      assert SlideBoard(b, n, d) == b;
      StuckLines(b, n, d);
    }
    assert AllSettled(b, n, Left) && AllSettled(b, n, Right) && AllSettled(b, n, Up) && AllSettled(b, n, Down);
    BothSettled(Line(b, n, Left, i), Line(b, n, Right, i), j, j');
    assert b[i][j'] == 0;
    assert Line(b, n, Up, j')[i] == 0;
    BothSettled(Line(b, n, Up, j'), Line(b, n, Down, j'), i, i');
    assert Line(b, n, Up, j')[i'] == 0;
  }

  /** An equal pair of tiles can be merged. */
  lemma PairMoves(b: Board, n: nat)
    requires Square(b, n) && EqualPair(b, n) && !HasBlank(b)
    ensures exists d: Direction :: SlideBoard(b, n, d) != b
  {
    var i, j :| 0 <= i < n && 0 <= j < n && (EqualBeside(b, n, i, j) || EqualAbove(b, n, i, j));
    assert b[i][j] != 0;
    if EqualBeside(b, n, i, j) {
      assert !Settled(Line(b, n, Left, i)) by {
        var line := Line(b, n, Left, i);
        assert line[j] != 0 && line[j-1] == line[j];
      }
      StuckLines(b, n, Left);
      assert SlideBoard(b, n, Left) != b;
    } else {
      assert !Settled(Line(b, n, Up, j)) by {
        var line := Line(b, n, Up, j);
        assert line[i] != 0 && line[i-1] == line[i];
      }
      StuckLines(b, n, Up);
      assert SlideBoard(b, n, Up) != b;
    }
  }

  /** A line that is not settled shows a blank or an equal pair. */
  lemma UnsettledShows(b: Board, n: nat, d: Direction, k: nat)
    requires Square(b, n) && k < n && !Settled(Line(b, n, d, k))
    ensures CanMove(b, n)
  {
    var line := Line(b, n, d, k);
    var c :| 0 < c < n && line[c] != 0 && (line[c-1] == 0 || line[c-1] == line[c]);
    match d {
      case Left =>
        assert line[c-1] == 0 ==> b[k][c-1] == 0;
        assert line[c-1] == line[c] ==> EqualBeside(b, n, k, c);
      case Right =>
        assert line[c-1] == 0 ==> b[k][n-c] == 0;
        assert line[c-1] == line[c] ==> EqualBeside(b, n, k, n - c);
      case Up =>
        assert line[c-1] == 0 ==> b[c-1][k] == 0;
        assert line[c-1] == line[c] ==> EqualAbove(b, n, c, k);
      case Down =>
        assert line[c-1] == 0 ==> b[n-c][k] == 0;
        assert line[c-1] == line[c] ==> EqualAbove(b, n, n - c, k);
    }
  }

  lemma ChangeShows(b: Board, n: nat, d: Direction)
    requires Square(b, n) && SlideBoard(b, n, d) != b
    ensures CanMove(b, n)
  {
    StuckLines(b, n, d);
    var k: nat :| k < n && !Settled(Line(b, n, d, k));
    UnsettledShows(b, n, d, k);
  }

  /** The scan is right: on a board with at least one tile there is a blank or an equal
      pair exactly when some direction changes the board. */
  lemma CanMoveIff(b: Board, n: nat)
    requires Square(b, n) && HasTile(b)
    ensures CanMove(b, n) <==> AnyMove(b, n)
  {
    if d: Direction :| SlideBoard(b, n, d) != b {
      ChangeShows(b, n, d);
    } else {
      if HasBlank(b) {
        var i, j :| 0 <= i < |b| && 0 <= j < |b[i]| && b[i][j] == 0;
        var i', j' :| 0 <= i' < |b| && 0 <= j' < |b[i']| && b[i'][j'] != 0;
        StuckIsFull(b, n, i, j, i', j');
      } else if EqualPair(b, n) {
        PairMoves(b, n);
      }
    }
  }

  /** Once a tile has appeared there is one for good. */
  lemma SpawnedHasTile(h: History, n: nat)
    requires Legal(h, n) && Spawns(h) > 0
    ensures HasTile(Replay(h, n).board)
  {
    hide Replay, Legal;
    var b := Replay(h, n).board;
    EveryGame(h, n);
    if !HasTile(b) {
      forall i | 0 <= i < n ensures b[i] == Zeros(n) {
        assert forall j :: 0 <= j < n ==> b[i][j] == 0;
      }
      TotalOfBlank(Value, b, n);
    }
  }

  /** The empty board is the one exception: blank everywhere, and nothing moves. */
  lemma EmptyBoardNeverMoves(n: nat, d: Direction)
    requires n > 0
    ensures CanMove(EmptyBoard(n), n) && SlideBoard(EmptyBoard(n), n, d) == EmptyBoard(n)
  {
    var b := EmptyBoard(n);
    assert b[0][0] == 0;
    forall k | 0 <= k < n ensures Settled(Line(b, n, d, k)) {
    }
    StuckLines(b, n, d);
  }
}
