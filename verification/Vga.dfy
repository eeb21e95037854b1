/** The driver of yequ/driver/vga.c. */
module Vga {
  import opened ScreenSpec

  /** video[i] is the cell at row i / 80 of the last 25, column i % 80. */
  ghost predicate Shows(video: seq<Cell>, log: Log)
    requires log.Valid()
  {
    && |video| == ROWS * COLUMNS
    && forall i :: 0 <= i < ROWS * COLUMNS ==> video[i] == At(log, log.Top() * COLUMNS + i)
  }

  function ScrolledUp(video: seq<Cell>): seq<Cell>
    requires |video| == ROWS * COLUMNS
  {
    video[COLUMNS..] + BlankLine()
  }

  lemma DrawShows(video: seq<Cell>, log: Log, cell: Cell)
    requires log.Valid() && Shows(video, log)
    ensures var i := (log.y - log.Top()) * COLUMNS + log.x;
      && 0 <= i < |video|
      && Shows(video[i := cell], Written(log, cell))
  {
    var i := (log.y - log.Top()) * COLUMNS + log.x;
    var drawn := Written(log, cell);
    var screen := video[i := cell];
    forall j | 0 <= j < ROWS * COLUMNS
      ensures screen[j] == At(drawn, drawn.Top() * COLUMNS + j)
    {
      assert video[j] == At(log, log.Top() * COLUMNS + j);
    }
  }

  /** Going down one row, with or without scrolling. */
  lemma DownShows(video: seq<Cell>, log: Log)
    requires log.Valid() && Shows(video, log)
    ensures var down, posY := NewRow(log), log.y - log.Top() + 1;
      && 0 < posY <= ROWS
      && (posY < ROWS ==> Shows(video, down) && posY == down.y - down.Top())
      && (posY == ROWS ==> Shows(ScrolledUp(video), down) && ROWS - 1 == down.y - down.Top())
  {
    var down := NewRow(log);
    if log.y + 1 == |log.rows| {
      forall j | 0 <= j < ROWS * COLUMNS
        ensures ScrolledUp(video)[j] == At(down, down.Top() * COLUMNS + j)
      {
        if j < (ROWS - 1) * COLUMNS {
          assert video[j + COLUMNS] == At(log, log.Top() * COLUMNS + (j + COLUMNS));
        }
      }
    }
  }

  lemma AcrossShows(video: seq<Cell>, log: Log, x: nat)
    requires log.Valid() && Shows(video, log) && x < COLUMNS
    ensures Shows(video, log.(x := x))
  {
    forall j | 0 <= j < ROWS * COLUMNS
      ensures video[j] == At(log.(x := x), log.Top() * COLUMNS + j)
    {
      assert video[j] == At(log, log.Top() * COLUMNS + j);
    }
  }

  lemma ShowsAt(video: seq<Cell>, log: Log, i: int)
    requires log.Valid() && Shows(video, log)
    requires 0 <= i && log.Top() * COLUMNS + i < |log.rows| * COLUMNS
    ensures i < |video| && video[i] == At(log, log.Top() * COLUMNS + i)
  {
  }

  /** On the screen itself: of a printed text, everything that landed in the last 25 rows
      stands at its place, in order. */
  lemma VisibleText(video: seq<Cell>, log: Log, text: seq<bv8>, back: bv8, fore: bv8, k: nat)
    requires log.Valid() && AllDrawn(text) && k < |text|
    requires Shows(video, Print(log, text, back, fore))
    ensures var i := Place(log) + k - Print(log, text, back, fore).Top() * COLUMNS;
      0 <= i ==> i < |video| && video[i] == CellOf(text[k], back, fore)
  {
    hide Print, AllDrawn, CellOf;
    var after := Print(log, text, back, fore);
    TextIsKept(log, text, back, fore, Place(log) + k);
    if after.Top() * COLUMNS <= Place(log) + k {
      ShowsAt(video, after, Place(log) + k - after.Top() * COLUMNS);
    }
  }

  /** What a byte does, case by case: where it moves to, after what it writes. */
  lemma PutCases(log: Log, c: bv8, back: bv8, fore: bv8)
    requires log.Valid()
    ensures c == BACKSPACE ==> Put(log, c, back, fore) == MoveTo(log, if log.x > 0 then log.x - 1 else 0)
    ensures c == TAB ==> Put(log, c, back, fore) == MoveTo(log, log.x + 8 - (log.x + 8) % 8)
    ensures c == RETURN ==> Put(log, c, back, fore) == MoveTo(log, 0)
    ensures c == NEWLINE ==> Put(log, c, back, fore) == NewRow(log)
    ensures Drawn(c) ==> Put(log, c, back, fore) == MoveTo(Written(log, Painted(c, Attribute(back, fore))), log.x + 1)
    ensures !Drawn(c) && c !in {BACKSPACE, TAB, RETURN, NEWLINE} ==> Put(log, c, back, fore) == MoveTo(log, log.x)
    ensures Drawn(c) ==> c !in {BACKSPACE, TAB, RETURN, NEWLINE}
  {
  }

  class Screen {
    const video: array<Cell>
    var posX: nat
    var posY: nat
    ghost var log: Log

    ghost predicate Valid()
      reads this, video
    {
      && log.Valid()
      && Shows(video[..], log)
      && posX == log.x && posY == log.y - log.Top()
    }

    /** The memory at 0xB8000, with whatever it held, then vga_init. */
    constructor ()
      ensures Valid() && fresh(video)
      ensures log == Empty()
    {
      video := new Cell[ROWS * COLUMNS];
      log := Empty();
      posX, posY := 0, 0;
      new;
      Init();
    }

    /** vga_init */
    method Init()
      requires video.Length == ROWS * COLUMNS
      modifies this, video
      ensures Valid() && log == Empty() && posX == posY == 0
      ensures forall i :: 0 <= i < 2000 ==> video[i] == 0x0F20
    {
      BlankIs();
      var i := 0;
      while i < ROWS * COLUMNS
        invariant 0 <= i <= ROWS * COLUMNS
        invariant forall j :: 0 <= j < i ==> video[j] == BLANK
      {
        video[i] := BLANK;
        i := i + 1;
      }
      posX, posY := 0, 0;
      log := Empty();
    }

    /** scroll: one row up, and a blank row below. */
    method Scroll()
      requires video.Length == ROWS * COLUMNS && posY <= ROWS
      modifies this`posY, video
      ensures posY == if old(posY) == ROWS then ROWS - 1 else old(posY)
      ensures video[..] == if old(posY) == ROWS then ScrolledUp(old(video[..])) else old(video[..])
      ensures old(posY) == 25 ==> forall i :: 0 <= i < 1920 ==> video[i] == old(video[i + 80])
      ensures old(posY) == 25 ==> forall i :: 1920 <= i < 2000 ==> video[i] == 0x0F20
    {
      BlankIs();
      if posY >= ROWS {
        var i := 0;
        while i < (ROWS - 1) * COLUMNS
          invariant 0 <= i <= (ROWS - 1) * COLUMNS
          invariant forall j :: 0 <= j < i ==> video[j] == old(video[j + 80])
          invariant forall j :: i <= j < ROWS * COLUMNS ==> video[j] == old(video[j])
        {
          video[i] := video[i + 80];
          i := i + 1;
        }
        while i < ROWS * COLUMNS
          invariant (ROWS - 1) * COLUMNS <= i <= ROWS * COLUMNS
          invariant forall j :: 0 <= j < (ROWS - 1) * COLUMNS ==> video[j] == old(video[j + 80])
          invariant forall j :: (ROWS - 1) * COLUMNS <= j < i ==> video[j] == BLANK
        {
          video[i] := BLANK;
          i := i + 1;
        }
        posY := ROWS - 1;
      }
    }

    /** The end of vga_putc_color: wrap a full row, then scroll. The log still stands where
        the row was left; `down` says that a newline has already moved the cursor off it. */
    method Settle(ghost down: bool)
      requires log.Valid() && Shows(video[..], log)
      requires posX <= COLUMNS && (down ==> posX == 0)
      requires posY == log.y - log.Top() + (if down then 1 else 0)
      modifies this, video
      ensures Valid()
      ensures log == if down then NewRow(old(log)) else MoveTo(old(log), old(posX))
    {
      ghost var before := log;
      DownShows(video[..], log);
      if posX < COLUMNS { AcrossShows(video[..], log, posX); }
      if posX >= COLUMNS {
        posX := 0;
        posY := posY + 1;
      }
      log := if down then NewRow(before) else MoveTo(before, old(posX));
      Scroll();
    }

    /** A cell is written under the cursor, which steps right, perhaps past the row's end. */
    method DrawCell(cell: Cell)
      requires Valid()
      modifies this, video
      ensures log.Valid() && Shows(video[..], log)
      ensures log == Written(old(log), cell)
      ensures posX == log.x + 1 && posY == log.y - log.Top()
    {
      hide At;
      DrawShows(video[..], log, cell);
      ghost var was := video[..];
      video[posY * COLUMNS + posX] := cell;
      assert video[..] == was[posY * COLUMNS + posX := cell];
      log := Written(log, cell);
      posX := posX + 1;
    }

    /** vga_putc_color */
    method PutcColor(c: bv8, back: bv8, fore: bv8)
      requires Valid()
      modifies this, video
      ensures Valid()
      ensures log == Put(old(log), c, back, fore)
    {
      hide Shows, Put, Painted, Attribute, Drawn, At, MoveTo, NewRow, Written;
      PutCases(log, c, back, fore);
      var attribute := Attribute(back, fore);
      if c == BACKSPACE && posX != 0 {
        posX := posX - 1;
      } else if c == TAB {
        posX := posX + 8 - (posX + 8) % 8;
      } else if c == RETURN {
        posX := 0;
      } else if c == NEWLINE {
        posX := 0;
        posY := posY + 1;
      } else if Drawn(c) {
        DrawCell(Painted(c, attribute));
      }
      Settle(c == NEWLINE);
    }

    /** vga_puts_color, and vga_puts with a black background and white letters. */
    method PutsColor(cstr: seq<bv8>, back: bv8, fore: bv8)
      requires Valid() && 0 in cstr
      modifies this, video
      ensures Valid()
      ensures log == Print(old(log), BeforeNul(cstr), back, fore)
    {
      var i := 0;
      while cstr[i] != 0
        invariant 0 <= i < |cstr| && 0 in cstr[i..]
        invariant Valid()
        invariant Print(log, BeforeNul(cstr[i..]), back, fore) == Print(old(log), BeforeNul(cstr), back, fore)
        decreases |cstr| - i
      {
        assert cstr[i..][1..] == cstr[i + 1..];
        PutcColor(cstr[i], back, fore);
        i := i + 1;
      }
    }
  }

  /** A C string, up to the NUL that ends it. */
  function BeforeNul(cstr: seq<bv8>): seq<bv8>
    requires 0 in cstr
  {
    if cstr[0] == 0 then [] else [cstr[0]] + BeforeNul(cstr[1..])
  }
}
