/** The text screen as a reader sees it: an ever growing log of 80-cell rows with a cursor
    in it, of which the screen shows the last 25. Nothing here ever scrolls. */
module ScreenSpec {

  const COLUMNS := 80
  const ROWS := 25

  type Cell = bv16
  type Line = l: seq<Cell> | |l| == COLUMNS witness seq(COLUMNS, i => 0)

  /** Four bits of background above four of foreground, in the high byte. */
  function Attribute(back: bv8, fore: bv8): bv16 {
    (((back << 4) | (fore & 0x0F)) as bv16) << 8
  }

  function Painted(c: bv8, attribute: bv16): Cell { (c as bv16) | attribute }

  /** A video cell: the character in the low byte, its colours above it. */
  function CellOf(c: bv8, back: bv8, fore: bv8): Cell {
    Painted(c, Attribute(back, fore))
  }

  const BLANK: Cell := 0x20 | (0x0F << 8)

  function BlankLine(): Line { seq(COLUMNS, i => BLANK) }

  /** x and y say where the next character goes; y counts from the first row ever. */
  datatype Log = Log(rows: seq<Line>, x: nat, y: nat) {
    ghost predicate Valid() {
      && x < COLUMNS && y < |rows|
      && |rows| == (if y < ROWS then ROWS else y + 1)
    }

    /** The first row that is on the screen. */
    function Top(): int { |rows| - ROWS }
  }

  /** A character the screen draws; char is signed, so codes above 127 are not. */
  predicate Drawn(c: bv8) { 0x20 <= c <= 0x7F }

  const BACKSPACE: bv8 := 0x08
  const TAB: bv8 := 0x09
  const NEWLINE: bv8 := 0x0A
  const RETURN: bv8 := 0x0D

  function Empty(): Log { Log(seq(ROWS, i => BlankLine()), 0, 0) }

  /** Down one row, which the log grows to hold. */
  function NewRow(log: Log): (r: Log)
    requires log.Valid()
    ensures r.Valid() && r.x == 0 && r.y == log.y + 1
    ensures log.rows <= r.rows
  {
    Log(if log.y + 1 < |log.rows| then log.rows else log.rows + [BlankLine()], 0, log.y + 1)
  }

  /** To column x, which is the start of the next row when it is the 80th. */
  function MoveTo(log: Log, x: nat): (r: Log)
    requires log.Valid() && x <= COLUMNS
    ensures r.Valid() && log.y <= r.y <= log.y + 1
    ensures log.rows <= r.rows
  {
    if x < COLUMNS then log.(x := x) else NewRow(log)
  }

  /** A cell under the cursor, which stays. */
  function Written(log: Log, cell: Cell): (r: Log)
    requires log.Valid()
    ensures r.Valid() && r.y == log.y && r.x == log.x
    ensures r.rows[..log.y] == log.rows[..log.y]
  {
    log.(rows := log.rows[log.y := log.rows[log.y][log.x := cell]])
  }

  function Draw(log: Log, cell: Cell): (r: Log)
    requires log.Valid()
    ensures r.Valid() && log.y <= r.y
    ensures r.rows[..log.y] == log.rows[..log.y]
  {
    MoveTo(Written(log, cell), log.x + 1)
  }

  /** The next column after x that is a multiple of 8. */
  function TabStop(x: nat): (r: nat)
    ensures x < r <= x + 8 && r % 8 == 0
  {
    (x / 8 + 1) * 8
  }

  function Put(log: Log, c: bv8, back: bv8, fore: bv8): (r: Log)
    requires log.Valid()
    ensures r.Valid()
    ensures log.y <= r.y <= log.y + 1
    ensures r.rows[..log.y] == log.rows[..log.y]
  {
    if c == BACKSPACE && log.x > 0 then log.(x := log.x - 1)
    else if c == TAB then MoveTo(log, TabStop(log.x))
    else if c == RETURN then log.(x := 0)
    else if c == NEWLINE then NewRow(log)
    else if Drawn(c) then Draw(log, CellOf(c, back, fore))
    else log
  }

  function Print(log: Log, text: seq<bv8>, back: bv8, fore: bv8): (r: Log)
    requires log.Valid()
    ensures r.Valid()
    decreases |text|
  {
    if text == [] then log else Print(Put(log, text[0], back, fore), text[1..], back, fore)
  }

  /** Rows above the cursor are history: no later text can touch them. */
  lemma {:induction false} HistoryIsKept(log: Log, text: seq<bv8>, back: bv8, fore: bv8)
    requires log.Valid()
    ensures log.y <= Print(log, text, back, fore).y
    ensures Print(log, text, back, fore).rows[..log.y] == log.rows[..log.y]
    decreases |text|
  {
    if text == [] {
    } else {
      var next := Put(log, text[0], back, fore);
      HistoryIsKept(next, text[1..], back, fore);
      var last := Print(next, text[1..], back, fore);
      assert last.rows[..log.y] == last.rows[..next.y][..log.y];
      assert next.rows[..log.y] == next.rows[..next.y][..log.y];
    }
  }

  lemma {:induction false} PrintAppends(log: Log, a: seq<bv8>, b: seq<bv8>, back: bv8, fore: bv8)
    requires log.Valid()
    ensures Print(log, a + b, back, fore) == Print(Print(log, a, back, fore), b, back, fore)
    decreases |a|
  {
    if a == [] {
      assert a + b == b;
    } else {
      PrintAppends(Put(log, a[0], back, fore), a[1..], b, back, fore);
      assert (a + b)[1..] == a[1..] + b;
    }
  }

  /** The cell `k` places after the start of row 0, counting 80 to a row. */
  function At(log: Log, k: nat): Cell
    requires k < |log.rows| * COLUMNS
  {
    log.rows[k / COLUMNS][k % COLUMNS]
  }

  function Place(log: Log): nat { log.y * COLUMNS + log.x }

  predicate AllDrawn(text: seq<bv8>) { forall i :: 0 <= i < |text| ==> Drawn(text[i]) }

  /** Drawing one character moves one place on and changes that place only. */
  lemma DrawnAt(log: Log, c: bv8, back: bv8, fore: bv8, k: nat)
    requires log.Valid() && Drawn(c)
    ensures Place(Put(log, c, back, fore)) == Place(log) + 1
    ensures k < |log.rows| * COLUMNS ==>
      At(Put(log, c, back, fore), k) == if k == Place(log) then CellOf(c, back, fore) else At(log, k)
  {
    if k < |log.rows| * COLUMNS {
      assert k / COLUMNS < |log.rows|;
      assert k == (k / COLUMNS) * COLUMNS + k % COLUMNS;
    }
  }

  /** Printable text lands in consecutive places, wrapping every 80, and nothing before
      the place where it started is disturbed. */
  lemma {:induction false} TextIsKept(log: Log, text: seq<bv8>, back: bv8, fore: bv8, k: nat)
    requires log.Valid() && AllDrawn(text)
    ensures var after := Print(log, text, back, fore);
      && Place(after) == Place(log) + |text|
      && |log.rows| <= |after.rows|
      && (k < Place(log) ==> At(after, k) == At(log, k))
      && (Place(log) <= k < Place(after) ==>
          At(after, k) == CellOf(text[k - Place(log)], back, fore))
    decreases |text|
  {
    if text == [] {
    } else {
      var next := Put(log, text[0], back, fore);
      DrawnAt(log, text[0], back, fore, k);
      TextIsKept(next, text[1..], back, fore, k);
    }
  }

  /** Backspace takes back the step of a drawn character exactly when that character did
      not fill the row. */
  lemma BackspaceUndoes(log: Log, c: bv8, back: bv8, fore: bv8)
    requires log.Valid() && Drawn(c)
    ensures Place(Print(log, [c, BACKSPACE], back, fore)) == Place(log) <==> log.x < COLUMNS - 1
  {
    var next := Put(log, c, back, fore);
    assert [c, BACKSPACE][1..] == [BACKSPACE] && [BACKSPACE][1..] == [];
    assert Print(next, [BACKSPACE], back, fore) == Put(next, BACKSPACE, back, fore);
  }

  /** Character and colours can be read back from a cell; only four bits of each colour survive. */
  lemma CellRoundTrip(c: bv8, back: bv8, fore: bv8)
    ensures CellOf(c, back, fore) & 0xFF == c as bv16
    ensures (CellOf(c, back, fore) >> 8) & 0x0F == (fore & 0x0F) as bv16
    ensures CellOf(c, back, fore) >> 12 == (back & 0x0F) as bv16
  {
  }

  /** What each code does: the drawn ones from 0x20 to 0x7F move the cursor one place on,
      8 a column back, 9 to the next multiple of 8, 13 to the start of the row, 10 to the
      start of the next, and all others nothing at all. */
  lemma CodesMove(log: Log, c: bv8, back: bv8, fore: bv8)
    requires log.Valid()
    ensures var after := Put(log, c, back, fore);
      if 0x20 <= c <= 0x7F then Place(after) == Place(log) + 1
      else if c == 8 && log.x > 0 then after == log.(x := log.x - 1)
      else if c == 9 then Place(after) == Place(log) + 8 - log.x % 8 && log.rows <= after.rows
      else if c == 13 then after == log.(x := 0)
      else if c == 10 then Place(after) == 80 * (log.y + 1) && log.rows <= after.rows
      else after == log
  {
    if 0x20 <= c <= 0x7F {
      DrawnAt(log, c, back, fore, 0);
    }
  }

  /** The rows a log begins with or grows by are blanks, white on black. */
  lemma RowsAreBlank(log: Log, i: nat, j: nat)
    requires log.Valid() && j < 80
    ensures |Empty().rows| == 25 && Empty().x == Empty().y == 0 && (i < 25 ==> Empty().rows[i][j] == 0x0F20)
    ensures |log.rows| <= i < |NewRow(log).rows| ==> NewRow(log).rows[i][j] == 0x0F20
    ensures |NewRow(log).rows| == if log.y + 1 == |log.rows| then |log.rows| + 1 else |log.rows|
  {
    BlankIs();
  }

  lemma BlankIs()
    ensures BLANK == 0x0F20 && BLANK & 0xFF == 0x20 && BLANK >> 8 == 0x0F
  {
  }
}
