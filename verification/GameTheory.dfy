/** What holds in every 2048 game, whatever is played and wherever tiles appear.  A game
    is the list of things that happened to an empty board; replaying it gives the board
    and the counters the programs keep up to date step by step. */
module GameTheory {
  import opened SlideSpec
  import opened BoardSpec
  import opened Powers

  datatype History =
    | Empty
    | Spawned(prev: History, pos: nat, value: int)
    | Moved(prev: History, dir: Direction)

  datatype Snapshot = Snapshot(board: Board, blank: int, score: int, moved: bool)

  function EmptyBoard(n: nat): (b: Board)
    ensures Square(b, n)
  {
    seq(n, _ => Zeros(n))
  }

  /** A cell of the board by its number, counted row by row. */
  function CellAt(b: Board, n: nat, pos: nat): int
    requires Square(b, n) && pos < n * n
  {
    PositionOnBoard(n, pos);
    b[pos / n][pos % n]
  }

  function Put(b: Board, n: nat, pos: nat, value: int): (r: Board)
    requires Square(b, n) && pos < n * n
    ensures Square(r, n)
  {
    PositionOnBoard(n, pos);
    b[pos / n := b[pos / n][pos % n := value]]
  }

  lemma PositionOnBoard(n: nat, pos: nat)
    requires pos < n * n
    ensures n > 0 && pos / n < n && pos % n < n
  {
  }

  lemma CellNumber(n: nat, i: nat, j: nat)
    requires i < n && j < n
    ensures 0 <= i * n + j < n * n
    ensures (i * n + j) / n == i && (i * n + j) % n == j
  {
    Scale(n, i, n - 1);
    Distribute(n, n - 1, 1);
    DivModUnique(i * n + j, n, i, j);
  }

  lemma DivModUnique(x: int, n: int, q: int, r: int)
    requires 0 <= r < n && x == q * n + r
    ensures x / n == q && x % n == r
  {
    var d := x / n - q;
    assert d * n == r - x % n;
    if d > 0 {
      Scale(n, 1, d);
    } else if d < 0 {
      Scale(n, d, -1);
    }
  }

  function AfterSpawn(s: Snapshot, n: nat, pos: nat, value: int): (r: Snapshot)
    requires Square(s.board, n) && pos < n * n
    ensures Square(r.board, n)
  {
    s.(board := Put(s.board, n, pos, value), blank := s.blank - 1)
  }

  function AfterMove(s: Snapshot, n: nat, d: Direction): (r: Snapshot)
    requires Square(s.board, n)
    ensures Square(r.board, n)
  {
    var lines := Lines(s.board, n, d);
    var after := SlideBoard(s.board, n, d);
    Snapshot(after, s.blank + RowsFreed(lines), s.score + RowsGain(lines), after != s.board)
  }

  /** The things that can happen: a 2 or a 4 appears in a blank cell, or a move is made. */
  ghost predicate Legal(h: History, n: nat)
    ensures Legal(h, n) && h.Spawned? ==> h.pos < n * n
    decreases h, 0
  {
    match h
    case Empty => true
    case Spawned(prev, pos, value) =>
      Legal(prev, n) && pos < n * n && CellAt(Replay(prev, n).board, n, pos) == 0 && (value == 2 || value == 4)
    case Moved(prev, d) => Legal(prev, n)
  }

  ghost function Replay(h: History, n: nat): (s: Snapshot)
    requires Legal(h, n)
    ensures Square(s.board, n)
    decreases h, 1
  {
    match h
    case Empty => Snapshot(EmptyBoard(n), n * n, 0, false)
    case Spawned(prev, pos, value) => AfterSpawn(Replay(prev, n), n, pos, value)
    case Moved(prev, d) => AfterMove(Replay(prev, n), n, d)
  }

  /** One direction is played: the move, and a tile after it exactly when the board changed. */
  predicate Played(was: History, now: History, d: Direction, changed: bool) {
    if changed then now.Spawned? && now.prev == Moved(was, d) else now == Moved(was, d)
  }

  /** Cells are numbered row by row. */
  lemma CellNumbers(b: Board, n: nat, i: nat, j: nat, v: int)
    requires Square(b, n) && i < n && j < n
    ensures i * n + j < n * n
    ensures CellAt(b, n, i * n + j) == b[i][j] && Put(b, n, i * n + j, v) == b[i := b[i][j := v]]
  {
    CellNumber(n, i, j);
  }

  lemma SpawnStep(h: History, n: nat, pos: nat, v: int)
    requires Legal(h, n) && pos < n * n && CellAt(Replay(h, n).board, n, pos) == 0 && (v == 2 || v == 4)
    ensures Legal(Spawned(h, pos, v), n)
    ensures Replay(Spawned(h, pos, v), n) == AfterSpawn(Replay(h, n), n, pos, v)
  {
  }

  function Spawns(h: History): nat {
    match h
    case Empty => 0
    case Spawned(prev, _, _) => 1 + Spawns(prev)
    case Moved(prev, _) => Spawns(prev)
  }

  function Fours(h: History): nat {
    match h
    case Empty => 0
    case Spawned(prev, _, value) => (if value == 4 then 1 else 0) + Fours(prev)
    case Moved(prev, _) => Fours(prev)
  }

  // ----- Powers of two -----

  ghost predicate IsTile(v: int) {
    exists k: nat :: k >= 1 && v == Pow2(k)
  }

  ghost predicate TileOrBlank(v: int) {
    v == 0 || IsTile(v)
  }

  function Log2(v: int): nat {
    if v <= 1 then 0 else 1 + Log2(v / 2)
  }

  lemma {:induction false} Log2OfPow2(k: nat)
    ensures Log2(Pow2(k)) == k
  {
    if k > 0 {
      Log2OfPow2(k - 1);
      assert Pow2(k) / 2 == Pow2(k - 1);
    }
  }

  // What is counted over the cells.
  function Value(v: int): int { v }
  function BlankAt(v: int): int { if v == 0 then 1 else 0 }
  function TileAt(v: int): int { if v == 0 then 0 else 1 }

  /** The points all the merges that made a tile 2^k out of 2s have scored: (k-1) 2^k. */
  function Potential(v: int): int { if v <= 0 then 0 else (Log2(v) - 1) * v }

  lemma PotentialOfMerge(v: int)
    requires IsTile(v)
    ensures Potential(v + v) == 2 * Potential(v) + v + v
    ensures IsTile(v + v)
  {
    var k: nat :| k >= 1 && v == Pow2(k);
    Log2OfPow2(k);
    Log2OfPow2(k + 1);
    assert v + v == Pow2(k + 1);
    Doubling(k, v);
  }

  lemma Doubling(k: int, v: int)
    ensures k * (v + v) == 2 * ((k - 1) * v) + v + v
  {
  }

  // ----- One line -----

  lemma {:induction false} SumOfTiles(f: int -> int, line: seq<int>)
    requires f(0) == 0
    ensures SumBy(f, Tiles(line)) == SumBy(f, line)
  {
    if line != [] {
      SumOfTiles(f, line[1..]);
      if line[0] != 0 {
        assert Tiles(line)[1..] == Tiles(line[1..]);
      } else {
        assert Tiles(line) == Tiles(line[1..]);
      }
    }
  }

  lemma {:induction false} SumOfZeros(f: int -> int, n: nat)
    ensures SumBy(f, Zeros(n)) == n * f(0)
  {
    if n > 0 {
      SumOfZeros(f, n - 1);
      assert Zeros(n)[1..] == Zeros(n - 1);
      assert n * f(0) == (n - 1) * f(0) + f(0);
    }
  }

  lemma SumOfSlide(f: int -> int, line: seq<int>)
    requires f(0) == 0
    ensures SumBy(f, SlideRow(line)) == SumBy(f, Merge(Tiles(line)))
  {
    var m := Merge(Tiles(line));
    SumByAppend(f, m, Zeros(|line| - |m|));
    SumOfZeros(f, |line| - |m|);
  }

  lemma {:induction false} ValueOfMerge(t: seq<int>)
    ensures SumBy(Value, Merge(t)) == SumBy(Value, t)
  {
    if |t| >= 2 {
      if t[0] == t[1] {
        ValueOfMerge(t[2..]);
        assert t[1..][1..] == t[2..];
      } else {
        ValueOfMerge(t[1..]);
      }
    }
  }

  lemma {:induction false} PotentialOfMerges(t: seq<int>)
    requires forall k :: 0 <= k < |t| ==> IsTile(t[k])
    ensures SumBy(Potential, Merge(t)) == SumBy(Potential, t) + MergeGain(t)
    ensures forall k :: 0 <= k < |Merge(t)| ==> IsTile(Merge(t)[k])
  {
    if |t| >= 2 {
      if t[0] == t[1] {
        PotentialOfMerges(t[2..]);
        PotentialOfMerge(t[0]);
        assert t[1..][1..] == t[2..];
      } else {
        PotentialOfMerges(t[1..]);
      }
    }
  }

  lemma {:induction false} TilesAreTiles(line: seq<int>)
    requires forall k :: 0 <= k < |line| ==> TileOrBlank(line[k])
    ensures forall k :: 0 <= k < |Tiles(line)| ==> IsTile(Tiles(line)[k])
  {
    if line != [] {
      TilesAreTiles(line[1..]);
    }
  }

  lemma {:induction false} BlanksOfLine(line: seq<int>)
    ensures SumBy(BlankAt, line) == |line| - |Tiles(line)|
  {
    if line != [] {
      BlanksOfLine(line[1..]);
    }
  }

  /** A slide keeps the sum of a line, turns the gain into potential, frees the counted
      cells and leaves only tiles and blanks. */
  lemma SlideAccounts(line: seq<int>)
    requires forall k :: 0 <= k < |line| ==> TileOrBlank(line[k])
    ensures SumBy(Value, SlideRow(line)) == SumBy(Value, line)
    ensures SumBy(Potential, SlideRow(line)) == SumBy(Potential, line) + RowGain(line)
    ensures SumBy(BlankAt, SlideRow(line)) == SumBy(BlankAt, line) + RowFreed(line)
    ensures forall k :: 0 <= k < |line| ==> TileOrBlank(SlideRow(line)[k])
  {
    var t := Tiles(line);
    SumOfTiles(Value, line);
    SumOfSlide(Value, line);
    ValueOfMerge(t);
    TilesAreTiles(line);
    PotentialOfMerges(t);
    SumOfTiles(Potential, line);
    SumOfSlide(Potential, line);
    BlanksOfSlide(line);
  }

  lemma BlanksOfSlide(line: seq<int>)
    ensures SumBy(BlankAt, SlideRow(line)) == SumBy(BlankAt, line) + RowFreed(line)
  {
    BlanksOfLine(line);
    BlanksOfLine(SlideRow(line));
    SlideKeepsTiles(line);
  }

  // ----- The whole board -----

  lemma {:induction false} SlideRowsAccounts(rows: Board, slid: Board)
    requires |slid| == |rows| && forall k :: 0 <= k < |rows| ==> slid[k] == SlideRow(rows[k])
    requires AllCells(rows, TileOrBlank)
    ensures Total(Value, slid) == Total(Value, rows)
    ensures Total(Potential, slid) == Total(Potential, rows) + RowsGain(rows)
    ensures Total(BlankAt, slid) == Total(BlankAt, rows) + RowsFreed(rows)
    ensures AllCells(slid, TileOrBlank)
  {
    if rows != [] {
      assert forall k :: 0 <= k < |rows[0]| ==> TileOrBlank(rows[0][k]);
      SlideAccounts(rows[0]);
      SlideRowsAccounts(rows[1..], slid[1..]);
      forall i, j | 0 <= i < |slid| && 0 <= j < |slid[i]| ensures TileOrBlank(slid[i][j]) {
        if i > 0 {
          assert slid[1..][i-1] == slid[i];
        }
      }
    }
  }

  lemma MoveAccounts(b: Board, n: nat, d: Direction)
    requires Square(b, n) && AllCells(b, TileOrBlank)
    ensures var lines := Lines(b, n, d);
            var after := SlideBoard(b, n, d);
            && Total(Value, after) == Total(Value, b)
            && Total(Potential, after) == Total(Potential, b) + RowsGain(lines)
            && Total(BlankAt, after) == Total(BlankAt, b) + RowsFreed(lines)
            && AllCells(after, TileOrBlank)
  {
    var lines := Lines(b, n, d);
    var slid := SlideRows(lines, n);
    AllCellsOfLines(b, n, d, TileOrBlank);
    SlideRowsAccounts(lines, slid);
    TotalOfLines(Value, b, n, d);
    TotalOfLines(Potential, b, n, d);
    TotalOfLines(BlankAt, b, n, d);
    TotalOfSlide(Value, b, n, d);
    TotalOfSlide(Potential, b, n, d);
    TotalOfSlide(BlankAt, b, n, d);
    LinesRoundTrip(slid, n, d);
    AllCellsOfLines(SlideBoard(b, n, d), n, d, TileOrBlank);
  }

  lemma {:induction false} TotalOfBlank(f: int -> int, rows: Board, n: nat)
    requires f(0) == 0 || f(0) == 1
    requires forall i :: 0 <= i < |rows| ==> rows[i] == Zeros(n)
    ensures Total(f, rows) == |rows| * (n * f(0))
  {
    if rows != [] {
      TotalOfBlank(f, rows[1..], n);
      SumOfZeros(f, n);
      assert |rows| * (n * f(0)) == (|rows| - 1) * (n * f(0)) + n * f(0);
    }
  }

  lemma SpawnAccounts(b: Board, n: nat, pos: nat, v: int)
    requires Square(b, n) && AllCells(b, TileOrBlank) && pos < n * n && CellAt(b, n, pos) == 0
    requires v == 2 || v == 4
    ensures var after := Put(b, n, pos, v);
            && Total(Value, after) == Total(Value, b) + v
            && Total(Potential, after) == Total(Potential, b) + (if v == 4 then 4 else 0)
            && Total(BlankAt, after) == Total(BlankAt, b) - 1
            && AllCells(after, TileOrBlank)
  {
    PositionOnBoard(n, pos);
    TotalUpdate(Value, b, pos / n, pos % n, v);
    TotalUpdate(Potential, b, pos / n, pos % n, v);
    TotalUpdate(BlankAt, b, pos / n, pos % n, v);
    assert Pow2(1) == 2 && Pow2(2) == 4;
    Log2OfPow2(1);
    Log2OfPow2(2);
  }

  // ----- Every game -----

  /** In every game the blank counter is the number of blank cells, the score is the
      potential of the board less 4 for every 4 that appeared, the tiles sum to what
      appeared, and every cell is blank or a power of two. */
  lemma {:induction false} EveryGame(h: History, n: nat)
    requires Legal(h, n)
    ensures var s := Replay(h, n);
            && s.blank == Total(BlankAt, s.board)
            && s.score == Total(Potential, s.board) - 4 * Fours(h)
            && Total(Value, s.board) == 2 * Spawns(h) + 2 * Fours(h)
            && AllCells(s.board, TileOrBlank)
  {
    match h {
      case Empty =>
        var b := EmptyBoard(n);
        TotalOfBlank(Value, b, n);
        TotalOfBlank(Potential, b, n);
        TotalOfBlank(BlankAt, b, n);
      case Spawned(prev, pos, v) =>
        EveryGame(prev, n);
        SpawnAccounts(Replay(prev, n).board, n, pos, v);
      case Moved(prev, d) =>
        EveryGame(prev, n);
        MoveAccounts(Replay(prev, n).board, n, d);
    }
  }

  // ----- The bound on the tile sum -----

  function BitCount(s: nat): nat {
    if s == 0 then 0 else s % 2 + BitCount(s / 2)
  }

  lemma {:induction false} BitCountIncrement(a: nat)
    ensures BitCount(a + 1) <= BitCount(a) + 1
  {
    if a % 2 == 1 {
      BitCountIncrement(a / 2);
      assert (a + 1) / 2 == a / 2 + 1;
    } else {
      assert (a + 1) / 2 == a / 2;
    }
  }

  /** Adding a power of two sets at most one more bit. */
  lemma {:induction false} BitCountAddPow2(a: nat, k: nat)
    ensures BitCount(a + Pow2(k)) <= BitCount(a) + 1
  {
    if k == 0 {
      BitCountIncrement(a);
    } else {
      BitCountAddPow2(a / 2, k - 1);
      assert (a + Pow2(k)) / 2 == a / 2 + Pow2(k - 1);
      assert (a + Pow2(k)) % 2 == a % 2;
    }
  }

  lemma {:induction false} BitsOfLine(line: seq<int>, s: nat)
    requires forall k :: 0 <= k < |line| ==> TileOrBlank(line[k])
    ensures SumBy(Value, line) >= 0
    ensures BitCount(s + SumBy(Value, line)) <= BitCount(s) + SumBy(TileAt, line)
  {
    if line != [] {
      if line[0] == 0 {
        BitsOfLine(line[1..], s);
      } else {
        var k: nat :| k >= 1 && line[0] == Pow2(k);
        BitCountAddPow2(s, k);
        BitsOfLine(line[1..], s + line[0]);
      }
    }
  }

  /** The tile sum has no more bits set than there are tiles. */
  lemma {:induction false} BitsOfBoard(b: Board, s: nat)
    requires AllCells(b, TileOrBlank)
    ensures Total(Value, b) >= 0
    ensures BitCount(s + Total(Value, b)) <= BitCount(s) + Total(TileAt, b)
  {
    if b != [] {
      assert forall k :: 0 <= k < |b[0]| ==> TileOrBlank(b[0][k]);
      BitsOfLine(b[0], s);
      BitsOfBoard(b[1..], s + SumBy(Value, b[0]));
    }
  }

  lemma {:induction false} TilesAndBlanks(b: Board, n: nat)
    requires forall i :: 0 <= i < |b| ==> |b[i]| == n
    ensures Total(TileAt, b) + Total(BlankAt, b) == |b| * n
  {
    if b != [] {
      TilesAndBlanksOfLine(b[0]);
      TilesAndBlanks(b[1..], n);
      assert |b| * n == (|b| - 1) * n + n;
    }
  }

  lemma {:induction false} TilesAndBlanksOfLine(line: seq<int>)
    ensures SumBy(TileAt, line) + SumBy(BlankAt, line) == |line|
  {
    if line != [] {
      TilesAndBlanksOfLine(line[1..]);
    }
  }

  lemma {:induction false} BitsOfAllOnes(m: nat)
    ensures BitCount(Pow2(m) - 1) == m
  {
    if m > 0 {
      BitsOfAllOnes(m - 1);
      assert (Pow2(m) - 1) / 2 == Pow2(m - 1) - 1;
      assert (Pow2(m) - 1) % 2 == 1;
    }
  }

  lemma BitsDoubled(a: nat)
    ensures BitCount(2 * a) == BitCount(a)
    ensures BitCount(2 * a + 1) == BitCount(a) + 1
  {
  }

  /** The two sums that a spawn would take over the bound need every cell to be used. */
  lemma BitsAtBound(m: nat)
    requires m >= 1
    ensures Pow2(m + 2) >= 8
    ensures BitCount(Pow2(m + 2) - 4) == m
    ensures BitCount(Pow2(m + 2) - 6) == m
  {
    hide BitCount, Pow2;
    var p := Pow2(m - 1);
    Pow2Doubles(m - 1);
    Pow2Doubles(m);
    Pow2Doubles(m + 1);
    BitsOfAllOnes(m);
    BitsOfAllOnes(m - 1);
    BitsAtBoundOf(p);
  }

  lemma BitsAtBoundOf(p: nat)
    requires p >= 1
    ensures BitCount(8 * p - 4) == BitCount(2 * p - 1)
    ensures BitCount(8 * p - 6) == BitCount(p - 1) + 1
  {
    hide BitCount;
    BitsDoubled(2 * p - 1);
    BitsDoubled(2 * (2 * p - 1));
    BitsDoubled(p - 1);
    BitsDoubled(2 * (p - 1));
    BitsDoubled(2 * (2 * (p - 1)) + 1);
    assert 8 * p - 4 == 2 * (2 * (2 * p - 1));
    assert 8 * p - 6 == 2 * (2 * (2 * (p - 1)) + 1);
  }

  /** In every game on an n by n board the tile sum stays at most 2^(n*n+2) - 4. */
  lemma {:induction false} TileSumBound(h: History, n: nat)
    requires Legal(h, n)
    ensures Total(Value, Replay(h, n).board) <= Pow2(n * n + 2) - 4
  {
    EveryGame(h, n);
    match h {
      case Empty =>
        Pow2Doubles(n * n);
        Pow2Doubles(n * n + 1);
      case Moved(prev, d) =>
        TileSumBound(prev, n);
        EveryGame(prev, n);
      case Spawned(prev, pos, v) =>
        TileSumBound(prev, n);
        EveryGame(prev, n);
        SpawnAccounts(Replay(prev, n).board, n, pos, v);
        SpawnBelowBound(Replay(prev, n).board, n, pos, Spawns(prev) + Fours(prev));
    }
  }

  /** With a blank cell left, the sum is at least a 4 away from the bound. */
  lemma SpawnBelowBound(b: Board, n: nat, pos: nat, half: nat)
    requires Square(b, n) && AllCells(b, TileOrBlank) && pos < n * n && CellAt(b, n, pos) == 0
    requires Total(Value, b) == 2 * half <= Pow2(n * n + 2) - 4
    ensures Total(Value, b) + 4 <= Pow2(n * n + 2) - 4
  {
    BitsOfBoard(b, 0);
    TilesAndBlanks(b, n);
    BlankCounted(b, n, pos);
    AwayFromBound(n * n, half);
  }

  lemma AwayFromBound(m: nat, half: nat)
    requires BitCount(2 * half) < m && 2 * half <= Pow2(m + 2) - 4
    ensures 2 * half + 4 <= Pow2(m + 2) - 4
  {
    hide BitCount, Pow2;
    BitsAtBound(m);
    Pow2Doubles(m + 1);
    assert 2 * half != Pow2(m + 2) - 4 && 2 * half != Pow2(m + 2) - 6;
  }

  /** A blank cell is counted. */
  lemma BlankCounted(b: Board, n: nat, pos: nat)
    requires Square(b, n) && pos < n * n && CellAt(b, n, pos) == 0
    ensures Total(BlankAt, b) >= 1
  {
    PositionOnBoard(n, pos);
    TotalUpdate(BlankAt, b, pos / n, pos % n, 1);
    BlankTotalNonNegative(b[pos / n := b[pos / n][pos % n := 1]]);
  }

  lemma {:induction false} BlankTotalNonNegative(b: Board)
    ensures Total(BlankAt, b) >= 0
  {
    if b != [] {
      BlanksOfLine(b[0]);
      BlankTotalNonNegative(b[1..]);
    }
  }

  // ----- What follows from the bound -----

  lemma {:induction false} SumByNonNegative(f: int -> int, line: seq<int>)
    requires forall k :: 0 <= k < |line| ==> f(line[k]) >= 0
    ensures SumBy(f, line) >= 0
    ensures forall k :: 0 <= k < |line| ==> f(line[k]) <= SumBy(f, line)
  {
    if line != [] {
      SumByNonNegative(f, line[1..]);
    }
  }

  lemma {:induction false} CellBelowTotal(b: Board)
    requires AllCells(b, TileOrBlank)
    ensures Total(Value, b) >= 0
    ensures forall i, j :: 0 <= i < |b| && 0 <= j < |b[i]| ==> b[i][j] <= Total(Value, b)
  {
    if b != [] {
      assert forall k :: 0 <= k < |b[0]| ==> TileOrBlank(b[0][k]);
      SumByNonNegative(Value, b[0]);
      CellBelowTotal(b[1..]);
      forall i, j | 0 <= i < |b| && 0 <= j < |b[i]| ensures b[i][j] <= Total(Value, b) {
        if i == 0 {
          assert Value(b[0][j]) <= SumBy(Value, b[0]);
        } else {
          assert b[1..][i-1][j] <= Total(Value, b[1..]);
        }
      }
    }
  }

  /** What cell (i, j) holds at the end of a game. */
  ghost function CellIn(h: History, n: nat, i: nat, j: nat): int
    requires Legal(h, n) && i < n && j < n
  {
    Replay(h, n).board[i][j]
  }

  /** No tile ever exceeds 2^(n*n+1), which is 131072 on the 4 by 4 board. */
  lemma LargestTile(h: History, n: nat, i: nat, j: nat)
    requires Legal(h, n) && i < n && j < n
    ensures CellIn(h, n, i, j) <= Pow2(n * n + 1)
  {
    hide Pow2, Total, TileOrBlank, Replay, Legal, AllCells;
    EveryGame(h, n);
    TileSumBound(h, n);
    OneTileBelow(Replay(h, n).board, i, j, n * n + 1);
  }

  lemma OneTileBelow(b: Board, i: nat, j: nat, m: nat)
    requires AllCells(b, TileOrBlank) && Total(Value, b) <= Pow2(m + 1) - 4
    requires i < |b| && j < |b[i]|
    ensures b[i][j] <= Pow2(m)
  {
    hide Pow2, Total, TileOrBlank;
    CellBelowTotal(b);
    TileBelow(b[i][j], m);
  }

  lemma TileBelow(v: int, m: nat)
    requires TileOrBlank(v) && v < Pow2(m + 1)
    ensures v <= Pow2(m)
  {
    if v != 0 {
      var k: nat :| k >= 1 && v == Pow2(k);
      PowerBelow(k, m);
    }
  }

  lemma PowerBelow(k: nat, m: nat)
    requires Pow2(k) < Pow2(m + 1)
    ensures k <= m && Pow2(k) <= Pow2(m)
  {
    if k <= m {
      Pow2Monotonic(k, m);
    } else {
      Pow2Monotonic(m + 1, k);
    }
  }

  /** A game has at most 2^(n*n+1) - 2 spawns. */
  lemma SpawnBound(h: History, n: nat)
    requires Legal(h, n)
    ensures Spawns(h) <= Pow2(n * n + 1) - 2
  {
    hide Pow2, Total, Replay, Legal, AllCells;
    EveryGame(h, n);
    TileSumBound(h, n);
    Pow2Doubles(n * n + 1);
  }

  /** The moves of a game that changed the board. */
  ghost function Changes(h: History, n: nat): nat
    requires Legal(h, n)
  {
    match h
    case Empty => 0
    case Spawned(prev, _, _) => Changes(prev, n)
    case Moved(prev, d) =>
      Changes(prev, n) + if SlideBoard(Replay(prev, n).board, n, d) == Replay(prev, n).board then 0 else 1
  }

  /** As the programs play: a tile appears after every move that changed the board. */
  ghost predicate Followed(h: History, n: nat)
    requires Legal(h, n)
  {
    match h
    case Empty => true
    case Spawned(prev, _, _) =>
      assert Legal(prev, n);
      Followed(if prev.Moved? then prev.prev else prev, n)
    case Moved(prev, d) => Followed(prev, n) && SlideBoard(Replay(prev, n).board, n, d) == Replay(prev, n).board
  }

  /** One step of such play. */
  lemma FollowedStep(h: History, n: nat, d: Direction)
    requires Legal(h, n) && Followed(h, n)
    ensures SlideBoard(Replay(h, n).board, n, d) == Replay(h, n).board ==> Followed(Moved(h, d), n)
    ensures forall pos: nat, v :: Legal(Spawned(Moved(h, d), pos, v), n) ==> Followed(Spawned(Moved(h, d), pos, v), n)
  {
    hide SlideBoard, Replay;
  }

  /** A tile that appears without a move does no harm to that. */
  lemma FollowedSpawn(h: History, n: nat, pos: nat, v: int)
    requires Legal(h, n) && Followed(h, n) && Legal(Spawned(h, pos, v), n)
    ensures Followed(Spawned(h, pos, v), n)
  {
    hide SlideBoard, Replay;
  }

  /** Play terminates: however long it goes on, at most 2^(n*n+1) - 2 moves change the board. */
  lemma PlayEnds(h: History, n: nat)
    requires Legal(h, n) && Followed(h, n)
    ensures Changes(h, n) <= Spawns(h) <= Pow2(n * n + 1) - 2
  {
    SpawnBound(h, n);
    ChangesSpawn(h, n);
  }

  lemma {:induction false} ChangesSpawn(h: History, n: nat)
    requires Legal(h, n) && Followed(h, n)
    ensures Changes(h, n) <= Spawns(h)
  {
    match h {
      case Empty =>
      case Spawned(prev, _, _) => ChangesSpawn(if prev.Moved? then prev.prev else prev, n);
      case Moved(prev, _) => ChangesSpawn(prev, n);
    }
  }

  lemma Distribute(m: int, x: int, y: int)
    ensures m * (x + y) == m * x + m * y && (x + y) * m == x * m + y * m
  {
  }

  lemma Scale(m: int, x: int, y: int)
    requires m >= 0 && x <= y
    ensures m * x <= m * y && x * m <= y * m
  {
  }

  lemma PotentialOfCell(v: int, m: nat)
    requires TileOrBlank(v) && v <= Pow2(m + 1)
    ensures 0 <= Potential(v) <= m * v
  {
    hide Pow2, Log2;
    if v != 0 {
      var k: nat :| k >= 1 && v == Pow2(k);
      Log2OfPow2(k);
      PowerAtMost(k, m + 1);
      Scale(v, k - 1, m);
      Scale(v, 0, k - 1);
    }
  }

  lemma PowerAtMost(k: nat, m: nat)
    requires Pow2(k) <= Pow2(m)
    ensures k <= m
  {
    if k > m {
      Pow2Monotonic(m + 1, k);
    }
  }

  lemma {:induction false} PotentialOfLine(line: seq<int>, m: nat)
    requires forall k :: 0 <= k < |line| ==> TileOrBlank(line[k]) && line[k] <= Pow2(m + 1)
    ensures SumBy(Potential, line) <= m * SumBy(Value, line)
  {
    if line != [] {
      PotentialOfCell(line[0], m);
      PotentialOfLine(line[1..], m);
      Distribute(m, line[0], SumBy(Value, line[1..]));
    }
  }

  lemma {:induction false} PotentialOfBoard(b: Board, m: nat)
    requires forall i, j :: 0 <= i < |b| && 0 <= j < |b[i]| ==> TileOrBlank(b[i][j]) && b[i][j] <= Pow2(m + 1)
    ensures Total(Potential, b) <= m * Total(Value, b)
  {
    if b != [] {
      assert forall k :: 0 <= k < |b[0]| ==> TileOrBlank(b[0][k]) && b[0][k] <= Pow2(m + 1);
      PotentialOfLine(b[0], m);
      PotentialOfBoard(b[1..], m);
      Distribute(m, SumBy(Value, b[0]), Total(Value, b[1..]));
    }
  }

  lemma ScoreBound(h: History, n: nat)
    requires Legal(h, n)
    ensures 0 <= n * n && Replay(h, n).score <= n * n * (Pow2(n * n + 2) - 4)
  {
    hide Replay, Legal, Pow2;
    ScoreUpTo(h, n, n * n);
  }

  lemma ScoreUpTo(h: History, n: nat, cells: nat)
    requires Legal(h, n) && cells == n * n
    ensures Replay(h, n).score <= cells * (Pow2(cells + 2) - 4)
  {
    hide Potential, Pow2, TileOrBlank, Total, Replay, Legal, AllCells;
    var s := Replay(h, n);
    EveryGame(h, n);
    TileSumBound(h, n);
    TilesBelow(h, n, cells);
    PotentialBound(s.board, cells, Pow2(cells + 2) - 4);
    FoursNonNegative(h);
  }

  ghost predicate TilesUpTo(b: Board, most: int) {
    forall i, j :: 0 <= i < |b| && 0 <= j < |b[i]| ==> TileOrBlank(b[i][j]) && b[i][j] <= most
  }

  lemma TilesBelow(h: History, n: nat, cells: nat)
    requires Legal(h, n) && cells == n * n
    ensures TilesUpTo(Replay(h, n).board, Pow2(cells + 1))
  {
    hide Pow2, TileOrBlank, Replay, Legal;
    EveryGame(h, n);
    var b := Replay(h, n).board;
    forall i, j | 0 <= i < |b| && 0 <= j < |b[i]| ensures TileOrBlank(b[i][j]) && b[i][j] <= Pow2(cells + 1) {
      LargestTile(h, n, i, j);
    }
  }

  lemma PotentialBound(b: Board, m: nat, sum: int)
    requires TilesUpTo(b, Pow2(m + 1)) && Total(Value, b) <= sum
    ensures Total(Potential, b) <= m * sum
  {
    hide Potential, Pow2, Total, TileOrBlank;
    PotentialOfBoard(b, m);
    Scale(m, Total(Value, b), sum);
  }

  lemma FoursNonNegative(h: History)
    ensures Fours(h) >= 0
  {
  }

  /** The score never goes down. */
  lemma {:induction false} GainNonNegative(rows: Board)
    requires AllCells(rows, TileOrBlank)
    ensures RowsGain(rows) >= 0
  {
    if rows != [] {
      assert forall k :: 0 <= k < |rows[0]| ==> TileOrBlank(rows[0][k]);
      TilesAreTiles(rows[0]);
      MergeGainNonNegative(Tiles(rows[0]));
      GainNonNegative(rows[1..]);
    }
  }

  lemma {:induction false} MergeGainNonNegative(t: seq<int>)
    requires forall k :: 0 <= k < |t| ==> IsTile(t[k])
    ensures MergeGain(t) >= 0
  {
    if |t| >= 2 {
      MergeGainNonNegative(if t[0] == t[1] then t[2..] else t[1..]);
    }
  }

  lemma {:induction false} ScoreNonNegative(h: History, n: nat)
    requires Legal(h, n)
    ensures Replay(h, n).score >= 0
  {
    match h {
      case Empty =>
      case Spawned(prev, _, _) => ScoreNonNegative(prev, n);
      case Moved(prev, d) =>
        ScoreNonNegative(prev, n);
        EveryGame(prev, n);
        AllCellsOfLines(Replay(prev, n).board, n, d, TileOrBlank);
        GainNonNegative(Lines(Replay(prev, n).board, n, d));
    }
  }

  /** On the 4 by 4 board every tile and the score fit a 32-bit int. */
  lemma FitsInt(h: History, i: nat, j: nat)
    requires Legal(h, 4) && i < 4 && j < 4
    ensures 0 <= Replay(h, 4).board[i][j] <= 131072
    ensures 0 <= Replay(h, 4).score < 0x8000_0000
  {
    LargestTile(h, 4, i, j);
    ScoreBound(h, 4);
    ScoreNonNegative(h, 4);
    EveryGame(h, 4);
    assert TileOrBlank(Replay(h, 4).board[i][j]);
    assert Pow2(8) == 256;
    assert Pow2(12) == 4096;
    assert Pow2(16) == 65536;
    assert Pow2(17) == 131072 && Pow2(18) == 262144;
  }

  // ----- A move that changes something leaves a blank -----

  lemma MoveLeavesBlank(b: Board, n: nat, d: Direction)
    requires Square(b, n) && SlideBoard(b, n, d) != b
    ensures HasBlank(SlideBoard(b, n, d))
  {
    hide SlideRow, SlideBoard, HasBlank, Line;
    SlideBoardChanges(b, n, d);
    var k: nat :| k < n && SlideRow(Line(b, n, d, k)) != Line(b, n, d, k);
    SlideLeavesBlank(Line(b, n, d, k));
    SlideBoardLine(b, n, d, k);
    BlankInLine(SlideBoard(b, n, d), n, d, k);
  }

  lemma BlankInLine(b: Board, n: nat, d: Direction, k: nat)
    requires Square(b, n) && k < n && 0 in Line(b, n, d, k)
    ensures HasBlank(b)
  {
    hide HasBlank;
    var c :| 0 <= c < n && Line(b, n, d, k)[c] == 0;
    match d {
      case Left => BlankCell(b, n, k, c);
      case Right => BlankCell(b, n, k, n - 1 - c);
      case Up => BlankCell(b, n, c, k);
      case Down => BlankCell(b, n, n - 1 - c, k);
    }
  }

  lemma BlankCell(b: Board, n: nat, i: nat, j: nat)
    requires Square(b, n) && i < n && j < n && b[i][j] == 0
    ensures HasBlank(b)
  {
  }

  predicate HasBlank(b: Board) {
    exists i, j :: 0 <= i < |b| && 0 <= j < |b[i]| && b[i][j] == 0
  }

  /** The counter of blanks is positive exactly when there is a blank cell. */
  lemma BlankCounter(b: Board, n: nat)
    requires Square(b, n)
    ensures Total(BlankAt, b) > 0 <==> HasBlank(b)
  {
    if HasBlank(b) {
      var i, j :| 0 <= i < |b| && 0 <= j < |b[i]| && b[i][j] == 0;
      TotalUpdate(BlankAt, b, i, j, 1);
      BlankTotalNonNegative(b[i := b[i][j := 1]]);
    } else {
      NoBlankCounted(b);
    }
  }

  lemma {:induction false} NoBlankCounted(b: Board)
    requires !HasBlank(b)
    ensures Total(BlankAt, b) == 0
  {
    if b != [] {
      assert 0 !in b[0];
      TilesFull(b[0]);
      BlanksOfLine(b[0]);
      NoBlankCounted(b[1..]);
    }
  }
}
