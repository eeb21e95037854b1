/** The C program asks whether play can go on before the new tile appears.  When that
    answer is right about the board the player then sees. */
module LateAnswer {
  import opened BoardSpec
  import opened GameTheory
  import opened Movable
  import SlideSpec

  /** Two equal tiles side by side. */
  ghost predicate TilePair(b: Board, n: nat)
    requires Square(b, n)
  {
    exists i, j :: 0 <= i < n && 0 <= j < n && b[i][j] != 0 && (EqualBeside(b, n, i, j) || EqualAbove(b, n, i, j))
  }

  predicate BlankElsewhere(b: Board, n: nat, i: nat, j: nat)
    requires Square(b, n)
  {
    exists k, l :: 0 <= k < n && 0 <= l < n && (k != i || l != j) && b[k][l] == 0
  }

  /** Cell (i, j) has a neighbour with this value. */
  predicate Beside(b: Board, n: nat, i: nat, j: nat, v: int)
    requires Square(b, n) && i < n && j < n
  {
    || (0 < i && b[i-1][j] == v) || (i + 1 < n && b[i+1][j] == v)
    || (0 < j && b[i][j-1] == v) || (j + 1 < n && b[i][j+1] == v)
  }

  /** Play can go on after a tile v has filled the blank at pos: there is another blank, or
      an equal pair of tiles, or a v beside the blank. */
  ghost predicate KeepsMoving(b: Board, n: nat, pos: nat, v: int)
    requires Square(b, n) && pos < n * n
  {
    PositionOnBoard(n, pos);
    BlankElsewhere(b, n, pos / n, pos % n) || TilePair(b, n) || Beside(b, n, pos / n, pos % n, v)
  }

  lemma SpawnKeepsMoving(b: Board, n: nat, pos: nat, v: int)
    requires Square(b, n) && pos < n * n && CellAt(b, n, pos) == 0 && v != 0
    ensures CanMove(Put(b, n, pos, v), n) <==> KeepsMoving(b, n, pos, v)
  {
    PositionOnBoard(n, pos);
    FilledKeepsMoving(b, n, pos / n, pos % n, v);
  }

  lemma FilledKeepsMoving(b: Board, n: nat, i: nat, j: nat, v: int)
    requires Square(b, n) && i < n && j < n && b[i][j] == 0 && v != 0
    ensures CanMove(b[i := b[i][j := v]], n) <==>
      BlankElsewhere(b, n, i, j) || TilePair(b, n) || Beside(b, n, i, j, v)
  {
    var after := b[i := b[i][j := v]];
    assert forall k, l :: 0 <= k < n && 0 <= l < n ==> after[k][l] == if k == i && l == j then v else b[k][l];
    if BlankElsewhere(b, n, i, j) {
      var k, l :| 0 <= k < n && 0 <= l < n && (k != i || l != j) && b[k][l] == 0;
      assert after[k][l] == 0;
    } else {
      FilledIsFull(b, after, n, i, j, v);
      FilledPairs(b, after, n, i, j, v);
    }
  }

  lemma FilledIsFull(b: Board, after: Board, n: nat, i: nat, j: nat, v: int)
    requires Square(b, n) && Square(after, n) && i < n && j < n && v != 0
    requires forall k, l :: 0 <= k < n && 0 <= l < n ==> after[k][l] == if k == i && l == j then v else b[k][l]
    requires !BlankElsewhere(b, n, i, j)
    ensures !HasBlank(after)
  {
    forall k, l | 0 <= k < n && 0 <= l < n ensures after[k][l] != 0 {
      assert b[k][l] == 0 ==> k == i && l == j;
    }
  }

  lemma FilledPairs(b: Board, after: Board, n: nat, i: nat, j: nat, v: int)
    requires Square(b, n) && Square(after, n) && i < n && j < n && b[i][j] == 0 && v != 0
    requires forall k, l :: 0 <= k < n && 0 <= l < n ==> after[k][l] == if k == i && l == j then v else b[k][l]
    requires !BlankElsewhere(b, n, i, j)
    ensures EqualPair(after, n) <==> TilePair(b, n) || Beside(b, n, i, j, v)
  {
    if EqualPair(after, n) {
      var k, l :| 0 <= k < n && 0 <= l < n && (EqualBeside(after, n, k, l) || EqualAbove(after, n, k, l));
      if k == i && l == j {
        assert Beside(b, n, i, j, v);
      } else if !Beside(b, n, i, j, v) {
        assert b[k][l] != 0;
        assert EqualBeside(b, n, k, l) || EqualAbove(b, n, k, l);
      }
    }
    if TilePair(b, n) {
      var k, l :| 0 <= k < n && 0 <= l < n && b[k][l] != 0 && (EqualBeside(b, n, k, l) || EqualAbove(b, n, k, l));
      assert EqualBeside(after, n, k, l) || EqualAbove(after, n, k, l);
    }
    if Beside(b, n, i, j, v) {
      if 0 < i && b[i-1][j] == v { assert EqualAbove(after, n, i, j); }
      else if i + 1 < n && b[i+1][j] == v { assert EqualAbove(after, n, i + 1, j); }
      else if 0 < j && b[i][j-1] == v { assert EqualBeside(after, n, i, j); }
      else { assert EqualBeside(after, n, i, j + 1); }
    }
  }

  /** Whatever the spawn, as far as the board before it decides: two blanks, an equal pair
      of tiles, or both a 2 and a 4 beside every blank. */
  ghost predicate SafeBeforeSpawn(b: Board, n: nat)
    requires Square(b, n)
  {
    || TilePair(b, n)
    || forall i, j :: 0 <= i < n && 0 <= j < n && b[i][j] == 0 ==>
         BlankElsewhere(b, n, i, j) || (Beside(b, n, i, j, 2) && Beside(b, n, i, j, 4))
  }

  ghost predicate EverySpawnKeepsMoving(b: Board, n: nat)
    requires Square(b, n)
  {
    forall pos: nat, v: int :: pos < n * n && CellAt(b, n, pos) == 0 && (v == 2 || v == 4) ==>
      CanMove(Put(b, n, pos, v), n)
  }

  /** The early answer is right for every spawn exactly on such boards. */
  lemma EarlyAnswerIff(b: Board, n: nat)
    requires Square(b, n)
    ensures EverySpawnKeepsMoving(b, n) <==> SafeBeforeSpawn(b, n)
  {
    hide CanMove, TilePair, BlankElsewhere, Beside, Put;
    if EverySpawnKeepsMoving(b, n) && !TilePair(b, n) {
      forall i, j | 0 <= i < n && 0 <= j < n && b[i][j] == 0
        ensures BlankElsewhere(b, n, i, j) || (Beside(b, n, i, j, 2) && Beside(b, n, i, j, 4))
      {
        var pos := PositionOf(n, i, j);
        SpawnKeepsMoving(b, n, pos, 2);
        SpawnKeepsMoving(b, n, pos, 4);
      }
    }
    if SafeBeforeSpawn(b, n) {
      forall pos: nat, v: int | pos < n * n && CellAt(b, n, pos) == 0 && (v == 2 || v == 4)
        ensures CanMove(Put(b, n, pos, v), n)
      {
        PositionOnBoard(n, pos);
        SpawnKeepsMoving(b, n, pos, v);
      }
    }
  }

  lemma PositionOf(n: nat, i: nat, j: nat) returns (pos: nat)
    requires i < n && j < n
    ensures pos < n * n && pos / n == i && pos % n == j
  {
    CellNumber(n, i, j);
    pos := i * n + j;
  }

  /** An answer that is wrong: moving left makes this board [[16, 0], [8, 32]], which can be
      moved; with a 2 in the blank nothing can. */
  lemma WrongAnswer()
    ensures var b := [[0, 16], [8, 32]];
      var slid := [[16, 0], [8, 32]];
      && Square(b, 2) && SlideBoard(b, 2, Left) == slid
      && CanMove(slid, 2) && CellAt(slid, 2, 1) == 0 && !CanMove(Put(slid, 2, 1, 2), 2)
  {
    var b: Board := [[0, 16], [8, 32]];
    var slid: Board := [[16, 0], [8, 32]];
    SlidPair(0, 16);
    SlidPair(8, 32);
    SlideBoardLine(b, 2, Left, 0);
    SlideBoardLine(b, 2, Left, 1);
    var next := SlideBoard(b, 2, Left);
    assert Line(next, 2, Left, 0) == next[0] && Line(next, 2, Left, 1) == next[1];
    assert Line(b, 2, Left, 0) == b[0] && Line(b, 2, Left, 1) == b[1];
    assert next == slid;
    assert slid[0][1] == 0;
    SpawnKeepsMoving(slid, 2, 1, 2);
  }

  lemma SlidPair(x: int, y: int)
    requires x != y && y != 0
    ensures SlideSpec.SlideRow([x, y]) == if x == 0 then [y, 0] else [x, y]
  {
    assert [x, y][1..] == [y] && [y][1..] == [];
    assert SlideSpec.Tiles([y]) == [y];
    assert SlideSpec.Tiles([x, y]) == if x == 0 then [y] else [x, y];
    assert SlideSpec.Merge([y]) == [y];
    assert SlideSpec.Merge([x, y]) == [x, y];
  }

  /** A wrong answer costs one key: on a board that no longer moves, the next key is
      answered with the end of the game, whatever its direction. */
  lemma NextKeyEnds(b: Board, n: nat, d: Direction)
    requires Square(b, n) && HasTile(b) && !CanMove(b, n)
    ensures SlideBoard(b, n, d) == b && !CanMove(SlideBoard(b, n, d), n)
  {
    hide CanMove, SlideBoard;
    CanMoveIff(b, n);
  }
}
