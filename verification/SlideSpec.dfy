/** What one move of 2048 does to one line of cells, with the leading end being the
    side moved towards: drop the blanks, merge equal neighbours from the leading end
    with no tile merging twice, and fill up with blanks.  A blank cell holds 0. */
module SlideSpec {

  /** The tiles of a line, in order. */
  function Tiles(line: seq<int>): (t: seq<int>)
    ensures |t| <= |line|
  {
    if line == [] then [] else (if line[0] == 0 then [] else [line[0]]) + Tiles(line[1..])
  }

  /** Equal neighbours merged from the leading end; a merged tile is not merged again. */
  function Merge(t: seq<int>): (m: seq<int>)
    ensures |m| <= |t|
  {
    if |t| < 2 then t
    else if t[0] == t[1] then [t[0] + t[1]] + Merge(t[2..])
    else [t[0]] + Merge(t[1..])
  }

  /** The points a merge scores: the sum of the tiles it creates. */
  function MergeGain(t: seq<int>): int {
    if |t| < 2 then 0
    else if t[0] == t[1] then t[0] + t[1] + MergeGain(t[2..])
    else MergeGain(t[1..])
  }

  function Zeros(n: nat): (z: seq<int>)
    ensures |z| == n && forall k :: 0 <= k < n ==> z[k] == 0
  {
    seq(n, _ => 0)
  }

  function SlideRow(line: seq<int>): (r: seq<int>)
    ensures |r| == |line|
  {
    var m := Merge(Tiles(line));
    m + Zeros(|line| - |m|)
  }

  /** The points one line scores, and the number of cells it frees. */
  function RowGain(line: seq<int>): int {
    MergeGain(Tiles(line))
  }

  function RowFreed(line: seq<int>): nat {
    |Tiles(line)| - |Merge(Tiles(line))|
  }

  // ----- Tiles -----

  lemma {:induction false} TilesAppend(a: seq<int>, b: seq<int>)
    ensures Tiles(a + b) == Tiles(a) + Tiles(b)
  {
    if a == [] {
      assert a + b == b;
    } else {
      assert (a + b)[1..] == a[1..] + b;
      TilesAppend(a[1..], b);
    }
  }

  lemma {:induction false} TilesOfZeros(z: seq<int>)
    requires forall k :: 0 <= k < |z| ==> z[k] == 0
    ensures Tiles(z) == []
  {
    if z != [] {
      TilesOfZeros(z[1..]);
    }
  }

  lemma {:induction false} TilesOfNonZeros(t: seq<int>)
    requires forall k :: 0 <= k < |t| ==> t[k] != 0
    ensures Tiles(t) == t
  {
    if t != [] {
      TilesOfNonZeros(t[1..]);
    }
  }

  lemma {:induction false} TilesNonZero(line: seq<int>)
    ensures forall k :: 0 <= k < |Tiles(line)| ==> Tiles(line)[k] != 0
  {
    if line != [] {
      TilesNonZero(line[1..]);
    }
  }

  /** A line with a blank has fewer tiles than cells, and a line with none is all tiles. */
  lemma {:induction false} TilesFull(line: seq<int>)
    ensures |Tiles(line)| == |line| <==> 0 !in line
    ensures 0 !in line ==> Tiles(line) == line
  {
    if line != [] {
      TilesFull(line[1..]);
      assert line == [line[0]] + line[1..];
    }
  }

  /** A run of blanks contributes no tile. */
  lemma SkipGap(line: seq<int>, lo: nat, hi: nat)
    requires lo <= hi <= |line|
    requires forall k :: lo <= k < hi ==> line[k] == 0
    ensures Tiles(line[lo..]) == Tiles(line[hi..])
  {
    assert line[lo..] == line[lo..hi] + line[hi..];
    TilesOfZeros(line[lo..hi]);
    TilesAppend(line[lo..hi], line[hi..]);
  }

  /** The first cell of a suffix, taken off. */
  lemma TilesStep(line: seq<int>, i: nat)
    requires i < |line|
    ensures Tiles(line[i..]) == (if line[i] == 0 then [] else [line[i]]) + Tiles(line[i+1..])
  {
    assert line[i..][1..] == line[i+1..];
  }

  // ----- Merge -----

  /** A merge that keeps the number of tiles changes nothing. */
  lemma {:induction false} MergeSameLength(t: seq<int>)
    ensures |Merge(t)| == |t| <==> Merge(t) == t
  {
    if |t| >= 2 && t[0] != t[1] {
      MergeSameLength(t[1..]);
    }
  }

  /** A merge changes nothing exactly when no two neighbours are equal. */
  lemma {:induction false} MergeUnchanged(t: seq<int>)
    ensures Merge(t) == t <==> forall k :: 0 < k < |t| ==> t[k-1] != t[k]
  {
    if |t| < 2 {
    } else if t[0] == t[1] {
      assert t[1-1] == t[1];
      assert |Merge(t)| < |t|;
    } else {
      MergeUnchanged(t[1..]);
      var u := t[1..];
      if Merge(t) == t {
        assert Merge(u) == u;
        forall k | 0 < k < |t| ensures t[k-1] != t[k] {
          if k > 1 { assert u[k-2] != u[k-1]; }
        }
      }
      if forall k :: 0 < k < |t| ==> t[k-1] != t[k] {
        forall k | 0 < k < |u| ensures u[k-1] != u[k] {
          assert t[k] != t[k+1];
        }
      }
    }
  }

  lemma {:induction false} MergeNonZero(t: seq<int>)
    requires forall k :: 0 <= k < |t| ==> t[k] != 0
    ensures forall k :: 0 <= k < |Merge(t)| ==> Merge(t)[k] != 0
  {
    if |t| >= 2 {
      MergeNonZero(if t[0] == t[1] then t[2..] else t[1..]);
    }
  }

  // ----- The two-cursor loop -----

  /** What the in-place loops keep while cursor i fills and cursor j scans one line:
      the cells before i are final, the cells strictly between i and j are blank, the
      cells from j on are still the original ones. */
  ghost predicate Sliding(orig: seq<int>, line: seq<int>, i: nat, j: nat, gain: int, freed: int, moved: bool) {
    && Shape(orig, line, i, j)
    && Worth(orig, line[..i], Tiles(line[i..]), gain, freed)
    && Tracked(orig, line, i, moved)
  }

  ghost predicate Shape(orig: seq<int>, line: seq<int>, i: nat, j: nat) {
    && |line| == |orig|
    && i < j <= |line|
    && (forall k :: i < k < j ==> line[k] == 0)
    && line[j..] == orig[j..]
  }

  /** The final tiles so far and the tiles still to merge make up the whole answer. */
  ghost predicate Worth(orig: seq<int>, head: seq<int>, rest: seq<int>, gain: int, freed: int) {
    && Merge(Tiles(orig)) == head + Merge(rest)
    && gain + MergeGain(rest) == RowGain(orig)
    && freed + |rest| - |Merge(rest)| == RowFreed(orig)
  }

  /** The flag says whether the line has changed, and a change is never undone: some
      cell at or before the filling cursor differs for good. */
  ghost predicate Tracked(orig: seq<int>, line: seq<int>, i: nat, moved: bool)
    requires i < |line| == |orig|
  {
    if moved then exists w :: 0 <= w <= i && line[w] != orig[w] && (w == i ==> orig[w] == 0)
    else line == orig
  }

  lemma SlidingStart(orig: seq<int>)
    requires |orig| >= 1
    ensures Sliding(orig, orig, 0, 1, 0, 0, false)
  {
    assert orig[0..] == orig;
  }

  lemma SlidingSkip(orig: seq<int>, line: seq<int>, i: nat, j: nat, gain: int, freed: int, moved: bool)
    requires Sliding(orig, line, i, j, gain, freed, moved) && j < |line|
    requires line[j] == 0
    ensures Sliding(orig, line, i, j + 1, gain, freed, moved)
  {
    assert line[j+1..] == line[j..][1..] == orig[j+1..];
  }

  /** The tiles from cursor i on, seen across the gap up to cursor j. */
  lemma ShapeView(orig: seq<int>, line: seq<int>, i: nat, j: nat)
    requires Shape(orig, line, i, j) && j < |line| && line[j] != 0
    ensures Tiles(line[i+1..]) == [line[j]] + Tiles(line[j+1..])
    ensures Tiles(line[i..]) == (if line[i] == 0 then [] else [line[i]]) + Tiles(line[i+1..])
  {
    SkipGap(line, i + 1, j);
    TilesStep(line, j);
    TilesStep(line, i);
  }

  /** Writing v under cursor i and a blank under cursor j. */
  lemma ShapeWrite(orig: seq<int>, line: seq<int>, i: nat, j: nat, v: int)
    requires Shape(orig, line, i, j) && j < |line| && v != 0
    ensures var after := line[i := v][j := 0];
            && Shape(orig, after, i, j + 1)
            && after[..i] == line[..i]
            && Tiles(after[i+1..]) == Tiles(line[j+1..])
            && Tiles(after[i..]) == [v] + Tiles(line[j+1..])
            && (i + 1 < |line| ==> after[i+1] == 0 || i + 1 == j + 1)
  {
    var after := line[i := v][j := 0];
    assert after[j+1..] == line[j+1..] == line[j..][1..] == orig[j+1..];
    SkipGap(after, i + 1, j + 1);
    TilesStep(after, i);
  }

  /** A cell that already differs, or one that is changed now, stays different. */
  lemma TrackedWrite(orig: seq<int>, line: seq<int>, i: nat, i': nat, j: nat, v: int, moved: bool)
    requires i < j < |line| == |orig| && i <= i' < |line| && i' <= j
    requires Tracked(orig, line, i, moved)
    requires v != line[i] && v != 0
    requires if i == i' then line[i] == 0 else line[i] != 0
    ensures Tracked(orig, line[i := v][j := 0], i', true)
  {
    var after := line[i := v][j := 0];
    if moved {
      var w :| 0 <= w <= i && line[w] != orig[w] && (w == i ==> orig[w] == 0);
      assert after[w] != orig[w];
    } else {
      assert after[i] != orig[i];
    }
  }

  lemma WorthMerge(orig: seq<int>, head: seq<int>, a: int, rest: seq<int>, gain: int, freed: int)
    requires Worth(orig, head, [a, a] + rest, gain, freed)
    ensures Worth(orig, head + [a + a], rest, gain + a + a, freed + 1)
  {
    assert ([a, a] + rest)[2..] == rest;
    assert head + ([a + a] + Merge(rest)) == (head + [a + a]) + Merge(rest);
  }

  lemma WorthNext(orig: seq<int>, head: seq<int>, a: int, rest: seq<int>, gain: int, freed: int)
    requires |rest| > 0 && rest[0] != a
    requires Worth(orig, head, [a] + rest, gain, freed)
    ensures Worth(orig, head + [a], rest, gain, freed)
  {
    assert ([a] + rest)[1..] == rest;
    assert head + ([a] + Merge(rest)) == (head + [a]) + Merge(rest);
  }

  /** Moving a tile into the blank under cursor i. */
  lemma SlidingMove(orig: seq<int>, line: seq<int>, i: nat, j: nat, gain: int, freed: int, moved: bool)
    requires Sliding(orig, line, i, j, gain, freed, moved) && j < |line|
    requires line[i] == 0 && line[j] != 0
    ensures Sliding(orig, line[i := line[j]][j := 0], i, j + 1, gain, freed, true)
  {
    ShapeView(orig, line, i, j);
    ShapeWrite(orig, line, i, j, line[j]);
    assert [] + Tiles(line[i+1..]) == Tiles(line[i+1..]);
    TrackedWrite(orig, line, i, i, j, line[j], moved);
  }

  lemma MergeWorth(orig: seq<int>, line: seq<int>, i: nat, j: nat, gain: int, freed: int)
    requires Shape(orig, line, i, j) && j < |line| && line[i] == line[j] != 0
    requires Worth(orig, line[..i], Tiles(line[i..]), gain, freed)
    ensures Worth(orig, line[..i] + [line[i] + line[j]], Tiles(line[j+1..]), gain + line[i] + line[j], freed + 1)
  {
    var rest := Tiles(line[j+1..]);
    ShapeView(orig, line, i, j);
    assert Tiles(line[i..]) == [line[i], line[i]] + rest;
    WorthMerge(orig, line[..i], line[i], rest, gain, freed);
  }

  lemma MergeShape(orig: seq<int>, line: seq<int>, after: seq<int>, i: nat, j: nat)
    requires Shape(orig, line, i, j) && j < |line| && line[i] == line[j] != 0
    requires after == line[i := line[i] + line[j]][j := 0]
    ensures Shape(orig, after, i + 1, j + 1)
    ensures Tiles(after[i+1..]) == Tiles(line[j+1..]) && after[..i+1] == line[..i] + [line[i] + line[j]]
  {
    ShapeWrite(orig, line, i, j, after[i]);
    assert after[..i+1] == after[..i] + [after[i]];
  }

  /** Merging a tile into the equal one under cursor i. */
  lemma SlidingMerge(orig: seq<int>, line: seq<int>, after: seq<int>, i: nat, j: nat,
                     gain: int, freed: int, moved: bool)
    requires Sliding(orig, line, i, j, gain, freed, moved) && j < |line|
    requires line[i] == line[j] != 0
    requires after == line[i := line[i] + line[j]][j := 0]
    ensures Sliding(orig, after, i + 1, j + 1, gain + after[i], freed + 1, true)
  {
    MergeShape(orig, line, after, i, j);
    MergeWorth(orig, line, i, j, gain, freed);
    TrackedWrite(orig, line, i, i + 1, j, after[i], moved);
  }

  /** Leaving cursor i on its tile and standing on the next cell. */
  lemma SlidingNext(orig: seq<int>, line: seq<int>, i: nat, j: nat, gain: int, freed: int, moved: bool)
    requires Sliding(orig, line, i, j, gain, freed, moved) && j < |line|
    requires line[i] != 0 && line[j] != 0 && line[i] != line[j]
    ensures i + 1 < j ==> line[i+1] == 0 && Sliding(orig, line, i + 1, j, gain, freed, moved)
    ensures i + 1 == j ==> Sliding(orig, line, i + 1, j + 1, gain, freed, moved)
  {
    ShapeView(orig, line, i, j);
    WorthNext(orig, line[..i], line[i], Tiles(line[i+1..]), gain, freed);
    assert line[..i+1] == line[..i] + [line[i]];
    assert line[j+1..] == line[j..][1..] == orig[j+1..];
    if moved {
      var w :| 0 <= w <= i && line[w] != orig[w] && (w == i ==> orig[w] == 0);
      assert 0 <= w <= i + 1;
    }
  }

  /** The last cell is blank and cursor i stands on the last tile: stepping past it. */
  lemma SlidingLastBlank(orig: seq<int>, line: seq<int>, i: nat, j: nat, gain: int, freed: int, moved: bool)
    requires Sliding(orig, line, i, j, gain, freed, moved) && j == |line| - 1
    requires line[i] != 0 && line[j] == 0
    ensures Sliding(orig, line, i + 1, j + 1, gain, freed, moved)
  {
    SkipGap(line, i + 1, |line|);
    TilesStep(line, i);
    assert line[..i+1] == line[..i] + [line[i]];
    assert Tiles(line[i+1..]) == [] && Tiles(line[i..]) == [line[i]];
    if moved {
      var w :| 0 <= w <= i && line[w] != orig[w] && (w == i ==> orig[w] == 0);
      assert 0 <= w <= i + 1;
    }
  }

  /** Pulling a blank from the last cell changes nothing. */
  lemma PullBlank(line: seq<int>, i: nat, j: nat)
    requires i <= j < |line| && line[i] == 0 && line[j] == 0
    ensures line[i := line[j]][j := 0] == line
  {
  }

  /** When the scan is over the line is the slid one, and moved says whether it differs. */
  lemma SlidingDone(orig: seq<int>, line: seq<int>, i: nat, gain: int, freed: int, moved: bool)
    requires Sliding(orig, line, i, |line|, gain, freed, moved)
    ensures line == SlideRow(orig)
    ensures gain == RowGain(orig) && freed == RowFreed(orig)
    ensures moved <==> SlideRow(orig) != orig
  {
    hide Tiles, Merge, MergeGain, RowGain, RowFreed, SlideRow;
    DoneTiles(line, i);
    DoneLine(orig, line, i);
  }

  /** One tile, or none, is left to merge. */
  lemma DoneTiles(line: seq<int>, i: nat)
    requires i < |line| && forall k :: i < k < |line| ==> line[k] == 0
    ensures var rest := if line[i] == 0 then [] else [line[i]];
      Tiles(line[i..]) == rest && Merge(rest) == rest && MergeGain(rest) == 0
  {
    SkipGap(line, i + 1, |line|);
    TilesStep(line, i);
  }

  lemma DoneLine(orig: seq<int>, line: seq<int>, i: nat)
    requires i < |line| == |orig| && forall k :: i < k < |line| ==> line[k] == 0
    requires Merge(Tiles(orig)) == line[..i] + if line[i] == 0 then [] else [line[i]]
    ensures line == SlideRow(orig)
  {
    hide Tiles, Merge;
    assert line == line[..i] + [line[i]] + line[i+1..];
  }

  // ----- What a slide does to a line -----

  /** A line stays as it is exactly when its tiles come first and no two neighbours are equal. */
  lemma SlideUnchanged(line: seq<int>)
    ensures SlideRow(line) == line <==> Settled(line)
  {
    if SlideRow(line) == line {
      UnchangedIsSettled(line);
    }
    if Settled(line) {
      SettledIsUnchanged(line);
    }
  }

  /** A line a slide keeps: a tile never follows a blank or an equal tile. */
  ghost predicate Settled(line: seq<int>) {
    forall k :: 0 < k < |line| && line[k] != 0 ==> line[k-1] != 0 && line[k-1] != line[k]
  }

  lemma SlideKeepsTiles(line: seq<int>)
    ensures Tiles(SlideRow(line)) == Merge(Tiles(line))
  {
    var m := Merge(Tiles(line));
    TilesNonZero(line);
    MergeNonZero(Tiles(line));
    TilesOfNonZeros(m);
    TilesOfZeros(Zeros(|line| - |m|));
    TilesAppend(m, Zeros(|line| - |m|));
  }

  lemma UnchangedIsSettled(line: seq<int>)
    requires SlideRow(line) == line
    ensures Settled(line)
  {
    var t := Tiles(line);
    SlideKeepsTiles(line);
    MergeUnchanged(t);
    TilesNonZero(line);
    assert line == t + Zeros(|line| - |t|);
    forall k | 0 < k < |line| && line[k] != 0
      ensures line[k-1] != 0 && line[k-1] != line[k]
    {
      assert line[k] == t[k] && line[k-1] == t[k-1];
    }
  }

  lemma SettledIsUnchanged(line: seq<int>)
    requires Settled(line)
    ensures SlideRow(line) == line
  {
    var p := TilesFirst(line);
    var t := line[..p];
    assert line == t + line[p..];
    assert Tiles(line) == t by {
      TilesAppend(t, line[p..]);
      TilesOfNonZeros(t);
      TilesOfZeros(line[p..]);
    }
    MergeUnchanged(t);
    assert line[p..] == Zeros(|line| - p);
  }

  /** Where the tiles of a line end, if they come first. */
  lemma TilesFirst(line: seq<int>) returns (p: nat)
    requires forall k :: 0 < k < |line| && line[k] != 0 ==> line[k-1] != 0
    ensures p <= |line|
    ensures forall k :: 0 <= k < p ==> line[k] != 0
    ensures forall k :: p <= k < |line| ==> line[k] == 0
  {
    p := 0;
    while p < |line| && line[p] != 0
      invariant p <= |line|
      invariant forall k :: 0 <= k < p ==> line[k] != 0
    {
      p := p + 1;
    }
    var q := p;
    while q < |line|
      invariant p <= q <= |line|
      invariant p < |line| ==> line[p] == 0
      invariant forall k :: p <= k < q ==> line[k] == 0
    {
      assert q > p ==> line[q-1] == 0;
      q := q + 1;
    }
  }

  /** A line that changes ends up with a blank. */
  lemma SlideLeavesBlank(line: seq<int>)
    requires SlideRow(line) != line
    ensures 0 in SlideRow(line)
  {
    var t := Tiles(line);
    TilesFull(line);
    MergeSameLength(t);
    var m := Merge(t);
    assert |m| < |line|;
    assert SlideRow(line)[|m|] == 0;
  }

  /** In a slid line a blank is followed by blanks. */
  lemma BlanksLast(line: seq<int>, p: nat)
    requires p + 1 < |line| && SlideRow(line)[p] == 0
    ensures SlideRow(line)[p + 1] == 0
  {
    hide Tiles, Merge;
    TilesNonZero(line);
    MergeNonZero(Tiles(line));
  }
}
