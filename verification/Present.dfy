/** From dirty bits to the window: update_dirty_rects of display_dirty.c and
    update_ui_screen of display.c. */
module Present {
  import opened Bits
  import opened Video
  import opened Canvas
  import opened Rectangles

  // rest holds the bits of w from column x on, moved down by x
  ghost predicate From(rest: nat, w: nat, x: nat) {
    forall i: nat :: Bit(rest, i) == Bit(w, x + i)
  }

  lemma FromHalf(rest: nat, w: nat, x: nat)
    requires From(rest, w, x)
    ensures From(rest / 2, w, x + 1)
    ensures Bit(w, x) == (rest % 2 == 1)
  {
    assert Bit(rest, 0) == Bit(w, x + 0);
    forall i: nat ensures Bit(rest / 2, i) == Bit(w, x + 1 + i) {
      assert Bit(rest, i + 1) == Bit(rest / 2, i);
      assert Bit(rest, i + 1) == Bit(w, x + (i + 1));
    }
  }

  // A word that is not used up has a bit at or after x
  lemma FromNonzero(rest: nat, w: nat, x: nat, n: nat)
    requires From(rest, w, x) && Fits(w, n) && Fits(rest, n)
    ensures rest != 0 ==> x < n
    ensures rest == 0 ==> forall c: nat :: c >= x ==> !Bit(w, c)
  {
    if rest != 0 {
      var i := NonzeroHasBit(rest, n);
      if x + i >= n { FitsBits(w, n, x + i); }
    } else {
      forall c: nat | c >= x ensures !Bit(w, c) {
        ZeroBits(c - x);
        assert Bit(rest, c - x) == Bit(w, x + (c - x));
      }
    }
  }

  predicate Dirty(words: seq<nat>, x: int, y: int)
    requires |words| == SCREEN_HEIGHT
  {
    0 <= y < SCREEN_HEIGHT && 0 <= x && Bit(words[y], x)
  }

  // Every pair of one rectangle from each list is apart
  ghost predicate Cross(rs: seq<Rect>, ss: seq<Rect>) {
    forall i, j :: 0 <= i < |rs| && 0 <= j < |ss| ==> Apart(rs[i], ss[j])
  }

  lemma DisjointParts(rs: seq<Rect>, ss: seq<Rect>)
    ensures Disjoint(rs + ss) <==> Disjoint(rs) && Disjoint(ss) && Cross(rs, ss)
  {
    var all := rs + ss;
    if Disjoint(all) {
      forall i | 0 <= i < |ss| ensures ss[i].w > 0 && ss[i].h > 0 { assert all[|rs| + i] == ss[i]; }
      forall i | 0 <= i < |rs| ensures rs[i].w > 0 && rs[i].h > 0 { assert all[i] == rs[i]; }
      forall i, j | 0 <= i < j < |ss| ensures Apart(ss[i], ss[j]) {
        assert all[|rs| + i] == ss[i] && all[|rs| + j] == ss[j];
      }
      forall i, j | 0 <= i < j < |rs| ensures Apart(rs[i], rs[j]) { assert all[i] == rs[i] && all[j] == rs[j]; }
      forall i, j | 0 <= i < |rs| && 0 <= j < |ss| ensures Apart(rs[i], ss[j]) {
        assert all[i] == rs[i] && all[|rs| + j] == ss[j];
      }
    }
  }

  // Sorting disjoint rectangles into kept and retired ones keeps them disjoint
  lemma {:induction false} SortedOut(rs: seq<Rect>, y: int)
    requires Disjoint(rs)
    ensures Disjoint(Retired(rs, y)) && Disjoint(Kept(rs, y)) && Cross(Retired(rs, y), Kept(rs, y))
  {
    if rs != [] {
      var front, last := rs[..|rs| - 1], rs[|rs| - 1];
      assert rs == front + [last];
      DisjointParts(front, [last]);
      SortedOut(front, y);
      ApartFromAll(front, last, Retired(front, y));
      ApartFromAll(front, last, Kept(front, y));
      DisjointParts(Retired(front, y), [last]);
      DisjointParts(Kept(front, y), [last]);
    }
  }

  lemma ApartFromAll(rs: seq<Rect>, last: Rect, ss: seq<Rect>)
    requires Cross(rs, [last]) && forall i :: 0 <= i < |ss| ==> ss[i] in rs
    ensures Cross(ss, [last])
  {
    forall i | 0 <= i < |ss| ensures Apart(ss[i], last) {
      var n :| 0 <= n < |rs| && rs[n] == ss[i];
      assert Apart(rs[n], [last][0]);
    }
  }

  lemma Rearranged(b: seq<Rect>, a: seq<Rect>, y: int)
    requires Disjoint(b + a)
    ensures Disjoint((b + Retired(a, y)) + Kept(a, y))
  {
    var r, k := Retired(a, y), Kept(a, y);
    DisjointParts(b, a);
    SortedOut(a, y);
    assert Cross(b, r) by {
      forall i, j | 0 <= i < |b| && 0 <= j < |r| ensures Apart(b[i], r[j]) {
        var n :| 0 <= n < |a| && a[n] == r[j];
        assert Apart(b[i], a[n]);
      }
    }
    DisjointParts(b, r);
    assert Cross(b + r, k) by {
      forall i, j | 0 <= i < |b + r| && 0 <= j < |k| ensures Apart((b + r)[i], k[j]) {
        if i < |b| {
          var n :| 0 <= n < |a| && a[n] == k[j];
          assert Apart(b[i], a[n]);
        } else {
          assert Apart(r[i - |b|], k[j]);
        }
      }
    }
    DisjointParts(b + r, k);
  }

  lemma AllRetired(rs: seq<Rect>, y: int)
    requires forall i :: 0 <= i < |rs| ==> rs[i].y + rs[i].h != y + 1
    ensures Kept(rs, y) == [] && Retired(rs, y) == rs
  {
  }

  // What the end of a line does to the covered cells
  lemma SweepStep(words: seq<nat>, b: seq<Rect>, y: nat, n: seq<Rect>, a: seq<Rect>, a': seq<Rect>, n': seq<Rect>)
    requires |words| == SCREEN_HEIGHT && y < SCREEN_HEIGHT
    requires forall i, j :: Covers(a, i, j) || Covers(n, i, j) <==> Covers(b, i, j) || (j < y && Dirty(words, i, j))
    requires forall i, j :: Covers(a', i, j) <==> Covers(a, i, j) || (j == y && Dirty(words, i, y))
    requires forall i, j :: Covers(n', i, j) <==> Covers(n, i, j) || Covers(Retired(a', y), i, j)
    ensures forall i, j :: Covers(Kept(a', y), i, j) || Covers(n', i, j)
              <==> Covers(b, i, j) || (j < y + 1 && Dirty(words, i, j))
  {
    KeptAndRetired(a', y);
    forall i, j ensures Covers(Kept(a', y), i, j) || Covers(n', i, j)
                   <==> Covers(b, i, j) || (j < y + 1 && Dirty(words, i, j))
    {
      var _, _, _ := Covers(a', i, j), Covers(a, i, j), Covers(n, i, j);
    }
  }

  lemma SweepDisjoint(y: nat, n: seq<Rect>, a: seq<Rect>)
    requires Disjoint(n + a)
    requires forall k :: 0 <= k < |n| ==> n[k].y + n[k].h <= y
    requires forall k :: 0 <= k < |a| ==> a[k].y + a[k].h == y || a[k].y + a[k].h == y + 1
    ensures Disjoint((n + Retired(a, y)) + Kept(a, y))
    ensures forall k :: 0 <= k < |n + Retired(a, y)| ==> (n + Retired(a, y))[k].y + (n + Retired(a, y))[k].h <= y + 1
  {
    Rearranged(n, a, y);
    DisjointParts(n, a);
    SortedOut(a, y);
  }

  // Every cell that the window does not show as plotted is waiting to be shown: its dirty
  // bit is set, or a rectangle covers it, or everything is to be redrawn
  ghost predicate AllWaiting(shown: seq<Cell>, c: CanvasState, redraw: bool, rs: seq<Rect>)
    requires |shown| == SCREEN_CELLS && c.Valid()
  {
    forall x, y {:trigger c.DirtyAt(x, y)} :: OnScreen(x, y) ==>
      shown[Index(x, y)] == c.plotted[Index(x, y)] || redraw || c.DirtyAt(x, y) || Covers(rs, x, y)
  }

  // Drawing that marks what it changes keeps this
  lemma WaitingKept(shown: seq<Cell>, c: CanvasState, d: CanvasState, redraw: bool, rs: seq<Rect>)
    requires |shown| == SCREEN_CELLS && c.Valid() && d.Valid()
    requires AllWaiting(shown, c, redraw, rs) && Grown(c, d)
    ensures AllWaiting(shown, d, redraw, rs)
  {
    forall x, y | OnScreen(x, y)
      ensures shown[Index(x, y)] == d.plotted[Index(x, y)] || redraw || d.DirtyAt(x, y) || Covers(rs, x, y)
    {
      var _, _ := c.DirtyAt(x, y), d.DirtyAt(x, y);
    }
  }

  // So does turning dirty bits into rectangles
  lemma WaitingMoved(shown: seq<Cell>, c: CanvasState, d: CanvasState, redraw: bool, rs: seq<Rect>, rs': seq<Rect>)
    requires |shown| == SCREEN_CELLS && c.Valid() && d.Valid() && d.plotted == c.plotted
    requires AllWaiting(shown, c, redraw, rs)
    requires forall i, j :: Covers(rs', i, j) <==> Covers(rs, i, j) || Dirty(c.dirty, i, j)
    ensures AllWaiting(shown, d, redraw, rs')
  {
    forall x, y | OnScreen(x, y)
      ensures shown[Index(x, y)] == d.plotted[Index(x, y)] || redraw || d.DirtyAt(x, y) || Covers(rs', x, y)
    {
      var _, _ := c.DirtyAt(x, y), Covers(rs, x, y);
    }
  }

  // Is buffer cell i one that the rectangle covers?
  predicate Holds(r: Rect, i: nat) { In(r, i % 40, i / 40) }

  class Screen {
    const buffers: Buffers
    const rects: RectangleList
    const shown: array<Cell>         // the window, as uidisplay_area updated it
    var frameCount: nat              // frames since the last update
    var redrawAll: bool              // display_redraw_all

    ghost const Repr: set<object> := {this, rects, shown} + buffers.Repr

    constructor (buffers: Buffers)
      requires buffers.Valid()
      ensures Valid() && Faithful() && this.buffers == buffers && fresh(Repr - buffers.Repr)
    {
      this.buffers := buffers;
      rects := new RectangleList();
      shown := new Cell[SCREEN_CELLS];
      frameCount, redrawAll := 0, true;
    }

    ghost predicate Distinct() {
      && rects !in buffers.Repr && shown !in buffers.Repr && this !in buffers.Repr
      && rects as object != shown && rects as object != this
      && shown.Length == SCREEN_CELLS
    }

    ghost predicate Valid()
      reads this, rects, shown, buffers.Repr
    {
      Distinct() && buffers.Valid() && rects.active == []
    }

    ghost predicate Faithful()
      requires Valid()
      reads this, rects, shown, buffers.Repr
    {
      AllWaiting(shown[..], buffers.Abs(), redrawAll, rects.inactive)
    }

    // The part of update_dirty_rects that turns the dirty bits of line y into rectangles
    method AddLine(y: nat)
      requires Ready(y) && y < SCREEN_HEIGHT
      modifies buffers.dirty, rects`active
      ensures Distinct() && buffers.Distinct()
      ensures buffers.dirty[..] == old(buffers.dirty[..])[y := 0]
      ensures rects.Growing(y)
      ensures forall i, j :: Covers(rects.active, i, j)
                <==> old(Covers(rects.active, i, j)) || (j == y && Dirty(old(buffers.dirty[..]), i, y))
      ensures old(Disjoint(rects.inactive + rects.active)) && (forall i :: !Covers(rects.inactive, i, y))
              ==> Disjoint(rects.inactive + rects.active)
    {
      ghost var w, words, a := buffers.dirty[y], buffers.dirty[..], rects.active;
      var x := 0;
      while buffers.dirty[y] != 0
        invariant x <= SCREEN_WIDTH_COLS && LineInv(y, w, words, a, x)
        invariant Disjoint(rects.inactive + a) && (forall i :: !Covers(rects.inactive, i, y))
                  ==> Disjoint(rects.inactive + rects.active)
        decreases SCREEN_WIDTH_COLS - x
      {
        var start := SkipClean(y, w, words, a, x);
        x := CountRun(y, w, words, start);
        rects.Add(y, start, x - start);
      }
      FromNonzero(0, w, x, SCREEN_WIDTH_COLS);
    }

    // Before line y: the active rectangles end with the line before
    ghost predicate Ready(y: nat)
      reads this, rects, shown, buffers.Repr
    {
      && Distinct() && buffers.Distinct()
      && (forall j :: 0 <= j < SCREEN_HEIGHT ==> Fits(buffers.dirty[j], SCREEN_WIDTH_COLS))
      && rects.Growing(y) && (forall i :: 0 <= i < |rects.active| ==> rects.active[i].y + rects.active[i].h == y)
    }

    ghost predicate RunInv(y: nat, w: nat, words: seq<nat>, x: nat)
      reads this, buffers.Repr
    {
      && Distinct() && buffers.Distinct() && y < SCREEN_HEIGHT
      && |words| == SCREEN_HEIGHT && words[y] == w && buffers.dirty[..] == words[y := buffers.dirty[y]]
      && Fits(w, SCREEN_WIDTH_COLS) && From(buffers.dirty[y], w, x) && Fits(buffers.dirty[y], SCREEN_WIDTH_COLS)
    }

    // Half way along line y: the dirty chunks before column x are in the active rectangles
    ghost predicate LineInv(y: nat, w: nat, words: seq<nat>, a: seq<Rect>, x: nat)
      reads this, rects, buffers.Repr
    {
      && RunInv(y, w, words, x) && rects.Growing(y)
      && (forall i :: 0 <= i < |a| ==> a[i].y + a[i].h == y)
      && (forall i, j :: Covers(rects.active, i, j) <==> Covers(a, i, j) || (j == y && 0 <= i < x && Bit(w, i)))
    }

    // Find the first dirty chunk at or after column x
    method SkipClean(y: nat, ghost w: nat, ghost words: seq<nat>, ghost a: seq<Rect>, x: nat) returns (start: nat)
      requires LineInv(y, w, words, a, x) && buffers.dirty[y] != 0
      modifies buffers.dirty
      ensures x <= start < SCREEN_WIDTH_COLS && LineInv(y, w, words, a, start) && buffers.dirty[y] % 2 == 1
    {
      start := x;
      FromNonzero(buffers.dirty[y], w, x, SCREEN_WIDTH_COLS);
      while buffers.dirty[y] % 2 == 0
        invariant x <= start < SCREEN_WIDTH_COLS && buffers.dirty[y] != 0 && LineInv(y, w, words, a, start)
        decreases SCREEN_WIDTH_COLS - start
      {
        FromHalf(buffers.dirty[y], w, start);
        FitsHalf(buffers.dirty[y], SCREEN_WIDTH_COLS);
        buffers.dirty[y] := buffers.dirty[y] / 2;
        start := start + 1;
        FromNonzero(buffers.dirty[y], w, start, SCREEN_WIDTH_COLS);
      }
    }

    // Walk from a dirty chunk to the end of its run
    method CountRun(y: nat, ghost w: nat, ghost words: seq<nat>, start: nat) returns (x: nat)
      requires RunInv(y, w, words, start) && start < SCREEN_WIDTH_COLS && buffers.dirty[y] % 2 == 1
      modifies buffers.dirty
      ensures start < x <= SCREEN_WIDTH_COLS && RunInv(y, w, words, x)
      ensures forall c :: start <= c < x ==> Bit(w, c)
    {
      x := start;
      while buffers.dirty[y] % 2 == 1
        invariant start <= x <= SCREEN_WIDTH_COLS && RunInv(y, w, words, x)
        invariant forall c :: start <= c < x ==> Bit(w, c)
        invariant buffers.dirty[y] % 2 == 1 || x > start
        decreases SCREEN_WIDTH_COLS - x
      {
        FromHalf(buffers.dirty[y], w, x);
        FitsHalf(buffers.dirty[y], SCREEN_WIDTH_COLS);
        buffers.dirty[y] := buffers.dirty[y] / 2;
        x := x + 1;
        if x > SCREEN_WIDTH_COLS { FitsBits(w, SCREEN_WIDTH_COLS, x - 1); }
      }
    }

    // update_dirty_rects
    method UpdateDirtyRects(frameRate: int)
      requires Valid()
      modifies buffers.dirty, rects
      ensures Valid()
      ensures forall y :: 0 <= y < SCREEN_HEIGHT ==> buffers.dirty[y] == 0
      ensures forall i, j :: Covers(rects.inactive, i, j)
                <==> old(Covers(rects.inactive, i, j)) || Dirty(old(buffers.dirty[..]), i, j)
      ensures frameRate <= 1 && old(rects.inactive) == [] ==> Disjoint(rects.inactive)
    {
      ghost var words, b := buffers.dirty[..], rects.inactive;
      SweepLines(words, b, frameRate);
      RetireAll(frameRate);
      FitsZero(SCREEN_WIDTH_COLS);
    }

    // Force all rectangles into the inactive list
    method RetireAll(frameRate: int)
      requires Ready(SCREEN_HEIGHT)
      modifies rects
      ensures rects.active == []
      ensures forall i, j :: Covers(rects.inactive, i, j)
                <==> old(Covers(rects.active, i, j) || Covers(rects.inactive, i, j))
      ensures frameRate <= 1 ==> rects.inactive == old(rects.inactive + rects.active)
    {
      AllRetired(rects.active, SCREEN_HEIGHT);
      rects.EndLine(SCREEN_HEIGHT, frameRate);
    }

    // The loop of update_dirty_rects
    method SweepLines(ghost words: seq<nat>, ghost b: seq<Rect>, frameRate: int)
      requires Valid() && words == buffers.dirty[..] && b == rects.inactive
      modifies buffers.dirty, rects
      ensures Ready(SCREEN_HEIGHT) && Sweeping(words, b, frameRate, SCREEN_HEIGHT)
    {
      var y := 0;
      while y < SCREEN_HEIGHT
        invariant 0 <= y <= SCREEN_HEIGHT && Ready(y) && Sweeping(words, b, frameRate, y)
      {
        SweepLine(words, b, frameRate, y);
        y := y + 1;
      }
    }

    // One line: add its runs, then retire the rectangles that did not grow
    method SweepLine(ghost words: seq<nat>, ghost b: seq<Rect>, frameRate: int, y: nat)
      requires y < SCREEN_HEIGHT && Ready(y) && Sweeping(words, b, frameRate, y)
      modifies buffers.dirty, rects
      ensures Ready(y + 1) && Sweeping(words, b, frameRate, y + 1)
    {
      ghost var a, n := rects.active, rects.inactive;
      FitsZero(SCREEN_WIDTH_COLS);
      assert frameRate <= 1 && b == [] ==> forall i :: !Covers(n, i, y);
      AddLine(y);
      ghost var a' := rects.active;
      rects.EndLine(y, frameRate);
      SweepStep(words, b, y, n, a, a', rects.inactive);
      if frameRate <= 1 && b == [] { SweepDisjoint(y, n, a'); }
    }

    // Before line y the lines above are in the rectangles and the others still in the bits
    ghost predicate Sweeping(words: seq<nat>, b: seq<Rect>, frameRate: int, y: nat)
      reads this, rects, shown, buffers.Repr
    {
      && Distinct() && buffers.Distinct() && |words| == SCREEN_HEIGHT && y <= SCREEN_HEIGHT
      && (forall j :: 0 <= j < y ==> buffers.dirty[j] == 0)
      && (forall j :: y <= j < SCREEN_HEIGHT ==> buffers.dirty[j] == words[j])
      && (forall i, j :: Covers(rects.active, i, j) || Covers(rects.inactive, i, j)
            <==> Covers(b, i, j) || (j < y && Dirty(words, i, j)))
      && (frameRate <= 1 && b == [] ==>
            && Disjoint(rects.inactive + rects.active)
            && forall k :: 0 <= k < |rects.inactive| ==> rects.inactive[k].y + rects.inactive[k].h <= y)
    }

    // What display_refresh_all asks of the window
    method RedrawAll()
      requires Valid()
      modifies this`redrawAll
      ensures Valid() && Faithful() && redrawAll
    {
      redrawAll := true;
      assert AllWaiting(shown[..], buffers.Abs(), true, rects.inactive);
    }

    // uidisplay_area
    method ShowArea(r: Rect)
      requires shown.Length == buffers.plotted.Length == SCREEN_CELLS && shown != buffers.plotted
      modifies shown
      ensures forall i :: 0 <= i < SCREEN_CELLS ==>
                shown[i] == if Holds(r, i) then buffers.plotted[i] else old(shown[i])
    {
      forall i | 0 <= i < SCREEN_CELLS && Holds(r, i) {
        shown[i] := buffers.plotted[i];
      }
    }

    // The loop of update_ui_screen over the inactive rectangles
    method ShowRectangles()
      requires Valid() && Faithful() && !redrawAll && forall y :: 0 <= y < SCREEN_HEIGHT ==> buffers.dirty[y] == 0
      modifies shown
      ensures shown[..] == buffers.plotted[..]
    {
      var i := 0;
      while i < |rects.inactive|
        invariant i <= |rects.inactive| && Valid()
        invariant forall k :: 0 <= k < SCREEN_CELLS ==> shown[k] == old(shown[k]) || shown[k] == buffers.plotted[k]
        invariant forall k, j {:trigger Holds(rects.inactive[j], k)} ::
                    0 <= k < SCREEN_CELLS && 0 <= j < i && Holds(rects.inactive[j], k) ==>
                      shown[k] == buffers.plotted[k]
      {
        ShowArea(rects.inactive[i]);
        i := i + 1;
      }
      forall k | 0 <= k < SCREEN_CELLS ensures shown[k] == buffers.plotted[k] {
        var x, y := k % 40, k / 40;
        assert Index(x, y) == k;
        ZeroBits(x);
        assert !buffers.Abs().DirtyAt(x, y);
        if Covers(rects.inactive, x, y) {
          var j :| 0 <= j < |rects.inactive| && In(rects.inactive[j], x, y);
          assert Holds(rects.inactive[j], k);
        }
      }
    }

    // update_ui_screen
    method UpdateUiScreen(frameRate: int)
      requires Valid() && Faithful() && forall y :: 0 <= y < SCREEN_HEIGHT ==> buffers.dirty[y] == 0
      modifies this`frameCount, this`redrawAll, shown, rects`inactive
      ensures Valid() && Faithful()
      ensures if frameRate <= old(frameCount) + 1
              then shown[..] == buffers.plotted[..] && rects.inactive == [] && frameCount == 0
              else shown[..] == old(shown[..]) && rects.inactive == old(rects.inactive)
                   && frameCount == old(frameCount) + 1
    {
      frameCount := frameCount + 1;
      if frameRate <= frameCount {
        frameCount := 0;
        if redrawAll {
          ShowArea(Rect(0, 0, 40, 240));
          redrawAll := false;
        } else {
          ShowRectangles();
        }
        rects.inactive := [];
        assert shown[..] == buffers.plotted[..];
      }
    }
  }
}
