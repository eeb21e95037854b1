/** The 2048 board as a value: n rows of n cells, the four directions of a move, and
    totals over all cells that do not depend on the direction they are counted in. */
module BoardSpec {
  import opened SlideSpec

  type Board = seq<seq<int>>

  datatype Direction = Left | Up | Right | Down

  ghost predicate Square(b: Board, n: nat) {
    |b| == n && forall i :: 0 <= i < n ==> |b[i]| == n
  }

  /** Line k of a board, read from the side moved towards. */
  function Line(b: Board, n: nat, d: Direction, k: nat): (line: seq<int>)
    requires Square(b, n) && k < n
    ensures |line| == n
  {
    match d
    case Left => b[k]
    case Right => seq(n, j requires 0 <= j < n => b[k][n - 1 - j])
    case Up => seq(n, i requires 0 <= i < n => b[i][k])
    case Down => seq(n, i requires 0 <= i < n => b[n - 1 - i][k])
  }

  /** The board whose line k is lines[k]. */
  function FromLines(lines: Board, n: nat, d: Direction): (b: Board)
    requires Square(lines, n)
    ensures Square(b, n)
  {
    seq(n, i requires 0 <= i < n => seq(n, j requires 0 <= j < n =>
      match d
      case Left => lines[i][j]
      case Right => lines[i][n - 1 - j]
      case Up => lines[j][i]
      case Down => lines[j][n - 1 - i]))
  }

  function Lines(b: Board, n: nat, d: Direction): (lines: Board)
    requires Square(b, n)
    ensures Square(lines, n)
  {
    seq(n, k requires 0 <= k < n => Line(b, n, d, k))
  }

  function SlideRows(b: Board, n: nat): (r: Board)
    requires Square(b, n)
    ensures Square(r, n)
  {
    seq(n, k requires 0 <= k < n => SlideRow(b[k]))
  }

  /** A move slides every line towards its leading end. */
  function SlideBoard(b: Board, n: nat, d: Direction): (r: Board)
    requires Square(b, n)
    ensures Square(r, n)
  {
    FromLines(SlideRows(Lines(b, n, d), n), n, d)
  }

  /** The points a move scores and the cells it frees, over the rows of b. */
  function RowsGain(b: Board): int {
    if b == [] then 0 else RowGain(b[0]) + RowsGain(b[1..])
  }

  function RowsFreed(b: Board): nat {
    if b == [] then 0 else RowFreed(b[0]) + RowsFreed(b[1..])
  }

  /** Reading lines off and putting them back are inverse, so a board is settled by its lines. */
  lemma LineOfLines(lines: Board, n: nat, d: Direction, k: nat)
    requires Square(lines, n) && k < n
    ensures Line(FromLines(lines, n, d), n, d, k) == lines[k]
  {
  }

  lemma LinesRoundTrip(b: Board, n: nat, d: Direction)
    requires Square(b, n)
    ensures FromLines(Lines(b, n, d), n, d) == b
    ensures Lines(FromLines(b, n, d), n, d) == b
  {
    forall i | 0 <= i < n
      ensures FromLines(Lines(b, n, d), n, d)[i] == b[i]
    {
      assert forall j :: 0 <= j < n ==> FromLines(Lines(b, n, d), n, d)[i][j] == b[i][j];
    }
    forall k | 0 <= k < n
      ensures Lines(FromLines(b, n, d), n, d)[k] == b[k]
    {
      LineOfLines(b, n, d, k);
    }
  }

  /** The move rule: every line, read from the side moved towards, is the slid line. */
  lemma SlideBoardLine(b: Board, n: nat, d: Direction, k: nat)
    requires Square(b, n) && k < n
    ensures Line(SlideBoard(b, n, d), n, d, k) == SlideRow(Line(b, n, d, k))
  {
    LineOfLines(SlideRows(Lines(b, n, d), n), n, d, k);
  }

  /** Left slides the rows, right the rows read backwards, up the columns, down the columns
      read upwards. */
  lemma MoveSides(b: Board, n: nat, k: nat)
    requires Square(b, n) && k < n
    ensures SlideBoard(b, n, Left)[k] == SlideRow(b[k])
    ensures seq(n, j requires 0 <= j < n => SlideBoard(b, n, Right)[k][n - 1 - j]) ==
      SlideRow(seq(n, j requires 0 <= j < n => b[k][n - 1 - j]))
    ensures seq(n, i requires 0 <= i < n => SlideBoard(b, n, Up)[i][k]) ==
      SlideRow(seq(n, i requires 0 <= i < n => b[i][k]))
    ensures seq(n, i requires 0 <= i < n => SlideBoard(b, n, Down)[n - 1 - i][k]) ==
      SlideRow(seq(n, i requires 0 <= i < n => b[n - 1 - i][k]))
  {
    hide SlideRow, SlideBoard;
    SlideBoardLine(b, n, Left, k);
    SlideBoardLine(b, n, Right, k);
    SlideBoardLine(b, n, Up, k);
    SlideBoardLine(b, n, Down, k);
  }

  /** After a move no blank stands between a tile and the side moved towards: next to a
      blank, away from that side, is a blank. */
  lemma Gravity(b: Board, n: nat, i: nat, j: nat)
    requires Square(b, n) && i < n && j < n
    ensures SlideBoard(b, n, Left)[i][j] == 0 && j + 1 < n ==> SlideBoard(b, n, Left)[i][j + 1] == 0
    ensures SlideBoard(b, n, Right)[i][j] == 0 && j > 0 ==> SlideBoard(b, n, Right)[i][j - 1] == 0
    ensures SlideBoard(b, n, Up)[i][j] == 0 && i + 1 < n ==> SlideBoard(b, n, Up)[i + 1][j] == 0
    ensures SlideBoard(b, n, Down)[i][j] == 0 && i > 0 ==> SlideBoard(b, n, Down)[i - 1][j] == 0
  {
    hide SlideRow, SlideBoard;
    GravityOfLine(b, n, Left, i, j);
    GravityOfLine(b, n, Right, i, n - 1 - j);
    GravityOfLine(b, n, Up, j, i);
    GravityOfLine(b, n, Down, j, n - 1 - i);
  }

  lemma GravityOfLine(b: Board, n: nat, d: Direction, k: nat, p: nat)
    requires Square(b, n) && k < n && p < n
    ensures var line := Line(SlideBoard(b, n, d), n, d, k); line[p] == 0 && p + 1 < n ==> line[p + 1] == 0
  {
    hide SlideRow, SlideBoard, Line;
    SlideBoardLine(b, n, d, k);
    if p + 1 < n && SlideRow(Line(b, n, d, k))[p] == 0 {
      BlanksLast(Line(b, n, d, k), p);
    }
  }

  /** A move changes the board exactly when it changes some line. */
  lemma SlideBoardChanges(b: Board, n: nat, d: Direction)
    requires Square(b, n)
    ensures SlideBoard(b, n, d) == b <==> forall k :: 0 <= k < n ==> SlideRow(Line(b, n, d, k)) == Line(b, n, d, k)
  {
    if SlideBoard(b, n, d) == b {
      forall k | 0 <= k < n ensures SlideRow(Line(b, n, d, k)) == Line(b, n, d, k) {
        SlideBoardLine(b, n, d, k);
      }
    }
    if forall k :: 0 <= k < n ==> SlideRow(Line(b, n, d, k)) == Line(b, n, d, k) {
      assert SlideRows(Lines(b, n, d), n) == Lines(b, n, d);
      LinesRoundTrip(b, n, d);
    }
  }

  // ----- Totals -----

  /** The sum of f over the cells of a line, and over all cells of a board. */
  function SumBy(f: int -> int, line: seq<int>): int {
    if line == [] then 0 else f(line[0]) + SumBy(f, line[1..])
  }

  function Total(f: int -> int, b: Board): int {
    if b == [] then 0 else SumBy(f, b[0]) + Total(f, b[1..])
  }

  lemma {:induction false} SumByAppend(f: int -> int, a: seq<int>, b: seq<int>)
    ensures SumBy(f, a + b) == SumBy(f, a) + SumBy(f, b)
  {
    if a == [] {
      assert a + b == b;
    } else {
      assert (a + b)[1..] == a[1..] + b;
      SumByAppend(f, a[1..], b);
    }
  }

  function Reversed(line: seq<int>): (r: seq<int>)
    ensures |r| == |line|
  {
    seq(|line|, j requires 0 <= j < |line| => line[|line| - 1 - j])
  }

  lemma {:induction false} SumByReversed(f: int -> int, line: seq<int>)
    ensures SumBy(f, Reversed(line)) == SumBy(f, line)
  {
    if line != [] {
      var rest := line[1..];
      SumByReversed(f, rest);
      assert Reversed(line) == Reversed(rest) + [line[0]];
      SumByAppend(f, Reversed(rest), [line[0]]);
    }
  }

  /** Column j of a list of rows that are all long enough. */
  function Column(b: Board, j: nat): (c: seq<int>)
    requires forall i :: 0 <= i < |b| ==> j < |b[i]|
    ensures |c| == |b|
  {
    seq(|b|, i requires 0 <= i < |b| => b[i][j])
  }

  function TotalColumns(f: int -> int, b: Board, w: nat): int
    requires forall i :: 0 <= i < |b| ==> w <= |b[i]|
  {
    if w == 0 then 0 else TotalColumns(f, b, w - 1) + SumBy(f, Column(b, w - 1))
  }

  lemma {:induction false} TotalColumnsStep(f: int -> int, b: Board, w: nat)
    requires |b| > 0 && forall i :: 0 <= i < |b| ==> w <= |b[i]|
    ensures TotalColumns(f, b, w) == SumBy(f, b[0][..w]) + TotalColumns(f, b[1..], w)
  {
    if w > 0 {
      TotalColumnsStep(f, b, w - 1);
      assert b[0][..w] == b[0][..w-1] + [b[0][w-1]];
      SumByAppend(f, b[0][..w-1], [b[0][w-1]]);
      assert Column(b, w - 1)[1..] == Column(b[1..], w - 1);
    }
  }

  /** Counting by columns gives the same total as counting by rows. */
  lemma {:induction false} TotalByColumns(f: int -> int, b: Board, w: nat)
    requires forall i :: 0 <= i < |b| ==> w == |b[i]|
    ensures TotalColumns(f, b, w) == Total(f, b)
  {
    if b == [] {
      TotalColumnsEmpty(f, w);
    } else {
      TotalColumnsStep(f, b, w);
      assert b[0][..w] == b[0];
      TotalByColumns(f, b[1..], w);
    }
  }

  lemma {:induction false} TotalColumnsEmpty(f: int -> int, w: nat)
    ensures TotalColumns(f, [], w) == 0
  {
    if w > 0 {
      TotalColumnsEmpty(f, w - 1);
    }
  }

  lemma {:induction false} TotalAppend(f: int -> int, a: Board, b: Board)
    ensures Total(f, a + b) == Total(f, a) + Total(f, b)
  {
    if a == [] {
      assert a + b == b;
    } else {
      assert (a + b)[1..] == a[1..] + b;
      TotalAppend(f, a[1..], b);
    }
  }

  /** The total of any board with these columns, listed in order. */
  lemma {:induction false} TotalOfColumns(f: int -> int, b: Board, cols: Board, w: nat)
    requires forall i :: 0 <= i < |b| ==> w <= |b[i]|
    requires |cols| >= w && forall k :: 0 <= k < w ==> cols[k] == Column(b, k)
    ensures Total(f, cols[..w]) == TotalColumns(f, b, w)
  {
    if w > 0 {
      TotalOfColumns(f, b, cols, w - 1);
      assert cols[..w] == cols[..w-1] + [cols[w-1]];
      TotalAppend(f, cols[..w-1], [cols[w-1]]);
    }
  }

  /** Rows that agree in their sums agree in the total. */
  lemma {:induction false} TotalCongruent(f: int -> int, a: Board, b: Board)
    requires |a| == |b| && forall k :: 0 <= k < |a| ==> SumBy(f, a[k]) == SumBy(f, b[k])
    ensures Total(f, a) == Total(f, b)
  {
    if a != [] {
      TotalCongruent(f, a[1..], b[1..]);
    }
  }

  /** The cells are the same whichever side they are read from. */
  lemma TotalOfLines(f: int -> int, b: Board, n: nat, d: Direction)
    requires Square(b, n)
    ensures Total(f, Lines(b, n, d)) == Total(f, b)
  {
    var up := Lines(b, n, Up);
    assert Total(f, up) == Total(f, b) by {
      TotalByColumns(f, b, n);
      forall k | 0 <= k < n ensures up[k] == Column(b, k) {
      }
      TotalOfColumns(f, b, up, n);
      assert up[..n] == up;
    }
    match d {
      case Up =>
      case Left =>
        assert Lines(b, n, Left) == b;
      case Right =>
        TotalOfReversed(f, b, Lines(b, n, Right));
      case Down =>
        TotalOfReversed(f, up, Lines(b, n, Down));
    }
  }

  lemma TotalOfReversed(f: int -> int, b: Board, r: Board)
    requires |b| == |r| && forall k :: 0 <= k < |b| ==> r[k] == Reversed(b[k])
    ensures Total(f, r) == Total(f, b)
  {
    forall k | 0 <= k < |b| ensures SumBy(f, r[k]) == SumBy(f, b[k]) {
      SumByReversed(f, b[k]);
    }
    TotalCongruent(f, r, b);
  }

  /** The total after a move is the total of the slid lines. */
  lemma TotalOfSlide(f: int -> int, b: Board, n: nat, d: Direction)
    requires Square(b, n)
    ensures Total(f, SlideBoard(b, n, d)) == Total(f, SlideRows(Lines(b, n, d), n))
  {
    var r := SlideRows(Lines(b, n, d), n);
    TotalOfLines(f, SlideBoard(b, n, d), n, d);
    LinesRoundTrip(r, n, d);
  }

  /** Changing one cell changes the total by the difference. */
  lemma {:induction false} TotalUpdate(f: int -> int, b: Board, i: nat, j: nat, v: int)
    requires i < |b| && j < |b[i]|
    ensures Total(f, b[i := b[i][j := v]]) == Total(f, b) - f(b[i][j]) + f(v)
  {
    var row := b[i];
    var c := b[i := row[j := v]];
    assert row == row[..j] + [row[j]] + row[j+1..];
    assert row[j := v] == row[..j] + [v] + row[j+1..];
    SumByThree(f, row[..j], row[j], row[j+1..]);
    SumByThree(f, row[..j], v, row[j+1..]);
    assert b == b[..i] + [row] + b[i+1..];
    assert c == b[..i] + [row[j := v]] + b[i+1..];
    TotalThree(f, b[..i], row, b[i+1..]);
    TotalThree(f, b[..i], row[j := v], b[i+1..]);
  }

  lemma SumByThree(f: int -> int, a: seq<int>, x: int, c: seq<int>)
    ensures SumBy(f, a + [x] + c) == SumBy(f, a) + f(x) + SumBy(f, c)
  {
    SumByAppend(f, a, [x]);
    SumByAppend(f, a + [x], c);
  }

  lemma TotalThree(f: int -> int, a: Board, x: seq<int>, c: Board)
    ensures Total(f, a + [x] + c) == Total(f, a) + SumBy(f, x) + Total(f, c)
  {
    TotalAppend(f, a, [x]);
    TotalAppend(f, a + [x], c);
  }

  /** A property every cell has, whichever side the cells are read from. */
  ghost predicate AllCells(b: Board, p: int -> bool) {
    forall i, j :: 0 <= i < |b| && 0 <= j < |b[i]| ==> p(b[i][j])
  }

  lemma AllCellsOfLines(b: Board, n: nat, d: Direction, p: int -> bool)
    requires Square(b, n)
    ensures AllCells(Lines(b, n, d), p) <==> AllCells(b, p)
  {
    if AllCells(b, p) {
      forall k, j | 0 <= k < n && 0 <= j < n ensures p(Lines(b, n, d)[k][j]) {
      }
    }
    if AllCells(Lines(b, n, d), p) {
      var lines := Lines(b, n, d);
      LinesRoundTrip(b, n, d);
      forall i, j | 0 <= i < n && 0 <= j < n ensures p(b[i][j]) {
        assert b[i][j] == FromLines(lines, n, d)[i][j];
        match d {
          case Left => assert p(lines[i][j]);
          case Right => assert p(lines[i][n-1-j]);
          case Up => assert p(lines[j][i]);
          case Down => assert p(lines[j][n-1-i]);
        }
      }
    }
  }
}
