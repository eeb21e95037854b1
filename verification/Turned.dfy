/** Three of the four moves are the move to the left on a turned board. */
module Turned {
  import opened SlideSpec
  import opened BoardSpec
  import opened GameTheory

  lemma SameBoard(a: Board, b: Board, n: nat)
    requires Square(a, n) && Square(b, n)
    requires forall i, j :: 0 <= i < n && 0 <= j < n ==> a[i][j] == b[i][j]
    ensures a == b
  {
    forall i | 0 <= i < n ensures a[i] == b[i] {
    }
  }

  /** Transposing twice, or exchanging the columns twice, gives the board back. */
  lemma TurnTwice(b: Board, n: nat, d: Direction)
    requires Square(b, n) && d != Down
    ensures Lines(Lines(b, n, d), n, d) == b
    ensures Lines(b, n, d) == FromLines(b, n, d)
  {
    SameBoard(Lines(Lines(b, n, d), n, d), b, n);
    SameBoard(Lines(b, n, d), FromLines(b, n, d), n);
  }

  lemma LeftLines(b: Board, n: nat)
    requires Square(b, n)
    ensures Lines(b, n, Left) == b && FromLines(b, n, Left) == b
  {
    SameBoard(Lines(b, n, Left), b, n);
    SameBoard(FromLines(b, n, Left), b, n);
  }

  function TurnedSnapshot(s: Snapshot, n: nat, d: Direction): (r: Snapshot)
    requires Square(s.board, n)
    ensures Square(r.board, n)
  {
    s.(board := Lines(s.board, n, d))
  }

  /** Up and right: turn, move left, turn back. */
  lemma MoveByTurning(s: Snapshot, n: nat, d: Direction)
    requires Square(s.board, n) && (d == Up || d == Right)
    ensures TurnedSnapshot(AfterMove(TurnedSnapshot(s, n, d), n, Left), n, d) == AfterMove(s, n, d)
  {
    var b := s.board;
    var t := Lines(b, n, d);
    var slid := SlideRows(t, n);
    LeftLines(t, n);
    LeftLines(slid, n);
    TurnTwice(slid, n, d);
    TurnTwice(b, n, d);
    assert SlideBoard(t, n, Left) == slid;
    assert SlideBoard(b, n, d) == Lines(slid, n, d);
    if Lines(slid, n, d) == b {
      assert slid == t;
    }
  }

  /** Down: transpose, move right, transpose. */
  lemma MoveDownByTurning(s: Snapshot, n: nat)
    requires Square(s.board, n)
    ensures TurnedSnapshot(AfterMove(TurnedSnapshot(s, n, Up), n, Right), n, Up) == AfterMove(s, n, Down)
  {
    var b := s.board;
    var t := Lines(b, n, Up);
    SameBoard(Lines(t, n, Right), Lines(b, n, Down), n);
    var slid := SlideRows(Lines(t, n, Right), n);
    SameBoard(Lines(FromLines(slid, n, Right), n, Up), FromLines(slid, n, Down), n);
    TurnTwice(b, n, Up);
    TurnTwice(FromLines(slid, n, Right), n, Up);
    if FromLines(slid, n, Down) == b {
      assert FromLines(slid, n, Right) == t;
    }
  }

  // ----- The rows one after another -----

  lemma {:induction false} RowsGainSnoc(b: Board, k: nat)
    requires k < |b|
    ensures RowsGain(b[..k+1]) == RowsGain(b[..k]) + RowGain(b[k])
    ensures RowsFreed(b[..k+1]) == RowsFreed(b[..k]) + RowFreed(b[k])
  {
    if k > 0 {
      var r := b[1..];
      RowsGainSnoc(r, k - 1);
      assert b[..k+1][1..] == r[..k] && b[..k][1..] == r[..k-1];
    } else {
      assert b[..1][1..] == [];
    }
  }

  /** Where a move to the left stands after k rows. */
  ghost predicate LeftProgress(old_: Snapshot, s: Snapshot, n: nat, k: nat)
    requires Square(old_.board, n) && k <= n
  {
    && Square(s.board, n)
    && (forall i :: 0 <= i < n ==> s.board[i] == if i < k then SlideRow(old_.board[i]) else old_.board[i])
    && s.score == old_.score + RowsGain(old_.board[..k])
    && s.blank == old_.blank + RowsFreed(old_.board[..k])
    && (s.moved <==> exists i :: 0 <= i < k && SlideRow(old_.board[i]) != old_.board[i])
  }

  lemma LeftProgressStep(old_: Snapshot, s: Snapshot, t: Snapshot, n: nat, k: nat)
    requires Square(old_.board, n) && k < n && LeftProgress(old_, s, n, k)
    requires t.board == s.board[k := SlideRow(s.board[k])]
    requires t.score == s.score + RowGain(s.board[k])
    requires t.blank == s.blank + RowFreed(s.board[k])
    requires t.moved == (s.moved || SlideRow(s.board[k]) != s.board[k])
    ensures LeftProgress(old_, t, n, k + 1)
  {
    RowsGainSnoc(old_.board, k);
  }

  lemma LeftProgressDone(old_: Snapshot, s: Snapshot, n: nat)
    requires Square(old_.board, n) && LeftProgress(old_, s, n, n)
    ensures s == AfterMove(old_, n, Left)
  {
    var b := old_.board;
    LeftLines(b, n);
    LeftLines(SlideRows(b, n), n);
    assert b[..n] == b;
    assert s.board == SlideRows(b, n);
  }
}
