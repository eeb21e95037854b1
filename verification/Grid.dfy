/** The board as both programs hold it: a two-dimensional array changed in place.  The
    transposition, the column exchange and the end-of-game scan are the same loops in
    the C and the C++ program. */
module Grid {
  import opened SlideSpec
  import opened BoardSpec
  import opened GameTheory
  import opened Movable

  /** The rows of an array as a value. */
  ghost function Cells(a: array2<int>): (b: Board)
    reads a
    ensures |b| == a.Length0
    ensures forall i :: 0 <= i < a.Length0 ==> |b[i]| == a.Length1
    ensures forall i, j :: 0 <= i < a.Length0 && 0 <= j < a.Length1 ==> b[i][j] == a[i, j]
  {
    seq(a.Length0, i requires 0 <= i < a.Length0 reads a =>
      seq(a.Length1, j requires 0 <= j < a.Length1 reads a => a[i, j]))
  }

  /** Rows of the array and rows of a value that agree cell by cell are equal. */
  lemma CellsAre(a: array2<int>, b: Board)
    requires |b| == a.Length0
    requires forall i :: 0 <= i < a.Length0 ==> |b[i]| == a.Length1
    requires forall i, j :: 0 <= i < a.Length0 && 0 <= j < a.Length1 ==> a[i, j] == b[i][j]
    ensures Cells(a) == b
  {
    forall i | 0 <= i < |b| ensures Cells(a)[i] == b[i] {
      assert forall j :: 0 <= j < |b[i]| ==> Cells(a)[i][j] == b[i][j];
    }
  }

  /** A tile pulled along its row into the cell under the filling cursor. */
  method Pull(a: array2<int>, k: nat, i: nat, j: nat)
    requires k < a.Length0 && i < a.Length1 && j < a.Length1
    modifies a
    ensures Cells(a) == old(Cells(a))[k := old(Cells(a))[k][i := old(Cells(a))[k][j]][j := 0]]
  {
    ghost var b := Cells(a);
    a[k, i] := a[k, j];
    a[k, j] := 0;
    CellsAre(a, b[k := b[k][i := b[k][j]][j := 0]]);
  }

  /** A tile added to the equal one under the filling cursor. */
  method Combine(a: array2<int>, k: nat, i: nat, j: nat)
    requires k < a.Length0 && i < a.Length1 && j < a.Length1
    modifies a
    ensures Cells(a) == old(Cells(a))[k := old(Cells(a))[k][i := old(Cells(a))[k][i] + old(Cells(a))[k][j]][j := 0]]
  {
    ghost var b := Cells(a);
    a[k, i] := a[k, i] + a[k, j];
    a[k, j] := 0;
    CellsAre(a, b[k := b[k][i := b[k][i] + b[k][j]][j := 0]]);
  }

  method SetCell(a: array2<int>, n: nat, pos: nat, v: int)
    requires a.Length0 == a.Length1 == n && pos < n * n
    modifies a
    ensures Cells(a) == Put(old(Cells(a)), n, pos, v)
  {
    ghost var b := Cells(a);
    PositionOnBoard(n, pos);
    a[pos / n, pos % n] := v;
    CellsAre(a, Put(b, n, pos, v));
  }

  method Transpose(a: array2<int>)
    requires a.Length0 == a.Length1
    modifies a
    ensures Cells(a) == Lines(old(Cells(a)), a.Length0, Up)
  {
    var n := a.Length0;
    ghost var b := Cells(a);
    var i := 0;
    while i < n
      invariant 0 <= i <= n
      invariant forall r, c :: 0 <= r < n && 0 <= c < n ==>
        a[r, c] == if r < i || c < i then b[c][r] else b[r][c]
    {
      var j := i + 1;
      while j < n
        invariant i < j <= n
        invariant forall r, c :: 0 <= r < n && 0 <= c < n ==>
          a[r, c] == if r < i || c < i || (r == i && c < j) || (c == i && r < j) then b[c][r] else b[r][c]
      {
        a[i, j], a[j, i] := a[j, i], a[i, j];
        j := j + 1;
      }
      i := i + 1;
    }
    CellsAre(a, Lines(b, n, Up));
  }

  method Mirror(a: array2<int>)
    requires a.Length0 == a.Length1
    modifies a
    ensures Cells(a) == Lines(old(Cells(a)), a.Length0, Right)
  {
    var n := a.Length0;
    ghost var b := Cells(a);
    ghost var m := Lines(b, n, Right);
    var i := 0;
    while i < n
      invariant 0 <= i <= n
      invariant forall r, c :: 0 <= r < n && 0 <= c < n ==>
        a[r, c] == if r < i then m[r][c] else b[r][c]
    {
      var j := 0;
      while j < n / 2
        invariant 0 <= j <= n / 2
        invariant forall r, c :: 0 <= r < n && 0 <= c < n ==>
          a[r, c] == if r < i || (r == i && (c < j || n - 1 - c < j)) then m[r][c] else b[r][c]
      {
        a[i, j], a[i, n - j - 1] := a[i, n - j - 1], a[i, j];
        j := j + 1;
      }
      i := i + 1;
    }
    CellsAre(a, m);
  }

  // ----- The end-of-game scan -----

  method AnyBlank(a: array2<int>) returns (r: bool)
    requires a.Length0 == a.Length1
    ensures r <==> HasBlank(Cells(a))
  {
    var n := a.Length0;
    var i := 0;
    while i < n
      invariant 0 <= i <= n
      invariant forall k, j :: 0 <= k < i && 0 <= j < n ==> a[k, j] != 0
    {
      var j := 0;
      while j < n
        invariant 0 <= j <= n
        invariant forall c :: 0 <= c < j ==> a[i, c] != 0
      {
        if a[i, j] == 0 {
          assert Cells(a)[i][j] == 0;
          return true;
        }
        j := j + 1;
      }
      i := i + 1;
    }
    return false;
  }

  ghost predicate RowDistinct(b: Board, n: nat, i: nat)
    requires Square(b, n) && i < n
  {
    forall j: nat :: j < n ==> !EqualBeside(b, n, i, j)
  }

  ghost predicate ColumnDistinct(b: Board, n: nat, j: nat)
    requires Square(b, n) && j < n
  {
    forall i: nat :: i < n ==> !EqualAbove(b, n, i, j)
  }

  /** Cell (i, j) equals none of its four neighbours. */
  ghost predicate Alone(b: Board, n: nat, i: nat, j: nat)
    requires Square(b, n) && i + 1 < n && j + 1 < n
  {
    && !EqualAbove(b, n, i, j) && !EqualAbove(b, n, i + 1, j)
    && !EqualBeside(b, n, i, j) && !EqualBeside(b, n, i, j + 1)
  }

  /** The inner cells, each against its four neighbours. */
  method InsideScan(a: array2<int>) returns (r: bool)
    requires a.Length0 == a.Length1 >= 2
    ensures r ==> EqualPair(Cells(a), a.Length0)
    ensures !r ==> forall i: nat, j: nat :: 1 <= i < a.Length0 - 1 && 1 <= j < a.Length0 - 1 ==>
      Alone(Cells(a), a.Length0, i, j)
  {
    var n := a.Length0;
    ghost var b := Cells(a);
    var i := 1;
    while i < n - 1
      invariant 1 <= i <= n - 1
      invariant forall r: nat, c: nat :: 1 <= r < i && 1 <= c < n - 1 ==> Alone(b, n, r, c)
    {
      var j := 1;
      while j < n - 1
        invariant 1 <= j <= n - 1
        invariant forall c: nat :: 1 <= c < j ==> Alone(b, n, i, c)
      {
        if a[i, j] == a[i-1, j] {
          assert EqualAbove(b, n, i, j);
          return true;
        }
        if a[i, j] == a[i+1, j] {
          assert EqualAbove(b, n, i + 1, j);
          return true;
        }
        if a[i, j] == a[i, j-1] {
          assert EqualBeside(b, n, i, j);
          return true;
        }
        if a[i, j] == a[i, j+1] {
          assert EqualBeside(b, n, i, j + 1);
          return true;
        }
        j := j + 1;
      }
      i := i + 1;
    }
    return false;
  }

  /** The first and last row, left to right. */
  method BorderRows(a: array2<int>) returns (r: bool)
    requires a.Length0 == a.Length1 >= 2
    ensures r ==> EqualPair(Cells(a), a.Length0)
    ensures !r ==> RowDistinct(Cells(a), a.Length0, 0) && RowDistinct(Cells(a), a.Length0, a.Length0 - 1)
  {
    var n := a.Length0;
    ghost var b := Cells(a);
    var i := 0;
    while i < n
      invariant i == 0 || i == n - 1 || i == 2 * (n - 1)
      invariant i > 0 ==> RowDistinct(b, n, 0)
      invariant i > n - 1 ==> RowDistinct(b, n, n - 1)
      decreases n - i
    {
      var j := 1;
      while j < n
        invariant 1 <= j <= n
        invariant forall c: nat :: c < j ==> !EqualBeside(b, n, i, c)
      {
        if a[i, j] == a[i, j-1] {
          assert EqualBeside(b, n, i, j);
          return true;
        }
        j := j + 1;
      }
      i := i + (n - 1);
    }
    return false;
  }

  /** The first and last column, top to bottom. */
  method BorderColumns(a: array2<int>) returns (r: bool)
    requires a.Length0 == a.Length1 >= 2
    ensures r ==> EqualPair(Cells(a), a.Length0)
    ensures !r ==> ColumnDistinct(Cells(a), a.Length0, 0) && ColumnDistinct(Cells(a), a.Length0, a.Length0 - 1)
  {
    var n := a.Length0;
    ghost var b := Cells(a);
    var j := 0;
    while j < n
      invariant j == 0 || j == n - 1 || j == 2 * (n - 1)
      invariant j > 0 ==> ColumnDistinct(b, n, 0)
      invariant j > n - 1 ==> ColumnDistinct(b, n, n - 1)
      decreases n - j
    {
      var i := 1;
      while i < n
        invariant 1 <= i <= n
        invariant forall c: nat :: c < i ==> !EqualAbove(b, n, c, j)
      {
        if a[i, j] == a[i-1, j] {
          assert EqualAbove(b, n, i, j);
          return true;
        }
        i := i + 1;
      }
      j := j + (n - 1);
    }
    return false;
  }

  /** The scan misses no equal pair: two neighbours lie along a border line, or one of
      them is an inner cell. */
  lemma ScanComplete(b: Board, n: nat)
    requires Square(b, n) && n >= 2
    requires forall i: nat, j: nat :: 1 <= i < n - 1 && 1 <= j < n - 1 ==> Alone(b, n, i, j)
    requires RowDistinct(b, n, 0) && RowDistinct(b, n, n - 1)
    requires ColumnDistinct(b, n, 0) && ColumnDistinct(b, n, n - 1)
    ensures !EqualPair(b, n)
  {
    forall i: nat, j: nat | i < n && j < n
      ensures !EqualBeside(b, n, i, j) && !EqualAbove(b, n, i, j)
    {
      if 1 <= i < n - 1 && j > 0 {
        assert if j < n - 1 then Alone(b, n, i, j) else n == 2 || Alone(b, n, i, j - 1);
      }
      if 1 <= j < n - 1 && i > 0 {
        assert if i < n - 1 then Alone(b, n, i, j) else n == 2 || Alone(b, n, i - 1, j);
      }
    }
  }

  method Scan(a: array2<int>) returns (r: bool)
    requires a.Length0 == a.Length1 >= 2
    ensures r <==> CanMove(Cells(a), a.Length0)
  {
    r := AnyBlank(a);
    if r { return; }
    r := InsideScan(a);
    if r { return; }
    r := BorderRows(a);
    if r { return; }
    r := BorderColumns(a);
    if r { return; }
    ScanComplete(Cells(a), a.Length0);
  }

  /** While the counter of blanks is not 0 a draw can hit a blank cell. */
  lemma BlankToDraw(a: array2<int>, n: nat)
    requires a.Length0 == a.Length1 == n
    requires Total(BlankAt, Cells(a)) != 0
    ensures exists pos: nat :: pos < n * n && BlankPosition(a, n, pos)
  {
    BlankTotalNonNegative(Cells(a));
    BlankCounter(Cells(a), n);
    var i, j :| 0 <= i < n && 0 <= j < n && Cells(a)[i][j] == 0;
    CellNumber(n, i, j);
    assert BlankPosition(a, n, i * n + j);
  }

  predicate BlankPosition(a: array2<int>, n: nat, pos: nat)
    requires a.Length0 == a.Length1 == n
    reads a
  {
    pos < n * n && (PositionOnBoard(n, pos); a[pos / n, pos % n] == 0)
  }

  lemma BlankPositionIsBlank(a: array2<int>, n: nat, pos: nat)
    requires a.Length0 == a.Length1 == n && BlankPosition(a, n, pos)
    ensures pos < n * n && CellAt(Cells(a), n, pos) == 0
  {
    PositionOnBoard(n, pos);
  }
}
