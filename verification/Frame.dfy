/** display_frame: the end of a frame, from the deferred cells to the window. */
module Frame {
  import opened Bits
  import opened Video
  import opened Canvas
  import opened Beam
  import L = Lazy
  import P = Paper
  import B = Border
  import S = Present
  import R = Rectangles

  // Flushing marks every cell that it changes
  lemma FlushGrows(s: L.State, d: L.State, lo: nat, hi: nat, marks: L.Cells)
    requires s.Valid() && L.Flushed(s, d, lo, hi, marks)
    ensures Grown(s.canvas, d.canvas)
  {
    forall x, y | OnScreen(x, y)
      ensures s.canvas.DirtyAt(x, y) ==> d.canvas.DirtyAt(x, y)
      ensures d.canvas.plotted[Index(x, y)] == s.canvas.plotted[Index(x, y)] || d.canvas.DirtyAt(x, y)
    {
      var px, py := x - BORDER_WIDTH_COLS, y - BORDER_HEIGHT;
      var _ := d.canvas.SameCell(s.canvas, x, y);
      if L.Flushes(s, lo, hi, px, py) {
        RecordOfFreshDraw(s.video, px, py);
        PutShows(s.canvas, x, y, FreshWord(s.video, px, py), FreshColours(s.video, px, py), Fresh(s.video, px, py));
      }
    }
  }

  // So does every operation on the display
  lemma NextGrows(s: L.State, p: Point, op: L.Op, d: L.State)
    requires s.Valid() && L.OpValid(op) && 0 <= p.x <= WIDTH_COLS && 0 <= p.y < HEIGHT
    requires L.Next(s, p, op, d)
    ensures Grown(s.canvas, d.canvas)
  {
    if op.RefreshAll? { return; }
    var f := d.(video := s.video, palettePending := s.palettePending);
    FlushGrows(s, f, s.Critical(), if L.CatchesUp(s, op, p) then Pos(p.x, p.y) else s.Critical(),
               L.Marks(s, op, Pos(p.x, p.y)));
  }

  lemma FrameBegunGrows(s: L.State, d: L.State)
    requires s.Valid() && L.FrameBegun(s, d)
    ensures Grown(s.canvas, d.canvas)
  {
    FlushGrows(s, d.(palettePending := s.palettePending), s.Critical(), PIXEL_BYTES,
               if s.palettePending then L.ALL_CELLS else L.NO_CELLS);
  }

  // The three parts of the display share their buffers and nothing else
  ghost predicate Together(paper: P.Display, border: B.BorderDisplay, screen: S.Screen) {
    && paper.buffers == border.buffers == screen.buffers && paper.timing == border.timing
    && paper.Distinct() && border.Distinct() && screen.Distinct()
    && paper.maybe != border.pixels && paper.ram as object != border.pixels && paper.palette as object != border.pixels
    && paper.maybe as object != screen.shown && paper.ram as object != screen.shown
    && paper.palette as object != screen.shown && border.pixels as object != screen.shown
  }

  // The window shows every paper cell with the inputs in force as the beam passed it
  ghost predicate PaperAsSeen(shown: seq<Cell>, tm: Timing, v: Video, ops: seq<L.Timed>)
    requires |shown| == SCREEN_CELLS && tm.Valid() && v.Valid() && L.OpsValid(ops)
  {
    forall x, y {:trigger IsPaper(x, y)} :: IsPaper(x, y) ==>
      shown[Index(x + BORDER_WIDTH_COLS, y + BORDER_HEIGHT)] == Fresh(L.InputsAt(tm, v, ops, Pos(x, y)), x, y)
  }

  // And every border pixel in the colour in force as the beam drew it
  ghost predicate BorderAsSeen(shown: seq<Cell>, tm: Timing, base: nat, events: seq<B.Event>)
    requires |shown| == SCREEN_CELLS && tm.Valid()
  {
    forall x, y, i {:trigger CellPixel(shown[Index(x, y)], i)} :: B.IsBorder(x, y) && 0 <= i < 8 ==>
      CellPixel(shown[Index(x, y)], i) == B.ColourInForce(tm, base, events, y, 8 * x + i)
  }

  // Any window that shows this canvas shows the border as the beam saw it exactly when two
  // colours a cell are enough
  ghost predicate BorderDone(tm: Timing, base: nat, requests: seq<B.Event>, c: CanvasState)
    requires tm.Valid() && c.Valid()
  {
    forall shown: seq<Cell> {:trigger BorderAsSeen(shown, tm, base, requests)} :: shown == c.plotted ==>
      (BorderAsSeen(shown, tm, base, requests) <==> B.OneChangeACell(tm, base, requests))
  }

  lemma BorderIsDone(tm: Timing, base: nat, requests: seq<B.Event>, c: CanvasState)
    requires tm.Valid() && c.Valid()
    requires B.ShowsBorder(tm, base, requests, c) <==> B.OneChangeACell(tm, base, requests)
    ensures BorderDone(tm, base, requests, c)
  {
    forall shown: seq<Cell> | shown == c.plotted
      ensures BorderAsSeen(shown, tm, base, requests) <==> B.ShowsBorder(tm, base, requests, c)
    {
    }
  }

  // Drawing the border leaves the finished paper alone
  lemma PaperSurvives(tm: Timing, v: Video, ops: seq<L.Timed>, d: L.State, e: L.State)
    requires tm.Valid() && v.Valid() && L.OpsValid(ops) && L.FrameStart(d) && L.ShowsEager(tm, v, ops, d)
    requires B.BorderOnly(d.canvas, e.canvas) && e == d.(canvas := e.canvas)
    ensures L.PaperKept(d, e) && L.FrameStart(e) && L.ShowsEager(tm, v, ops, e)
  {
    assert L.PaperKept(d, e) by {
      forall x, y | IsPaper(x, y)
        ensures var i := Index(x + BORDER_WIDTH_COLS, y + BORDER_HEIGHT);
                e.canvas.last[i] == d.canvas.last[i] && e.canvas.colours[i] == d.canvas.colours[i]
                && e.Plotted(x, y) == d.Plotted(x, y)
      {
        assert e.canvas.SameCell(d.canvas, x + BORDER_WIDTH_COLS, y + BORDER_HEIGHT);
      }
    }
    L.PaperKeptStart(d, e);
    forall x, y | IsPaper(x, y) ensures e.Plotted(x, y) == Fresh(L.InputsAt(tm, v, ops, Pos(x, y)), x, y) {
      assert e.Plotted(x, y) == d.Plotted(x, y);
    }
  }

  // With the picture d the operations of the frame make a whole frame, whatever comes of it
  // before the next one
  ghost predicate Finishes(tm: Timing, start: L.State, ops: seq<L.Timed>, d: L.State)
    requires tm.Valid() && d.Valid()
  {
    forall e: L.State {:trigger L.BetweenFrames(d, e)} :: L.BetweenFrames(d, e) ==> L.WholeFrame(tm, start, ops, d, e)
  }

  lemma PaperFinished(tm: Timing, start: L.State, ops: seq<L.Timed>, s: L.State, d: L.State,
                      shown: seq<Cell>, redraw: bool, rs: seq<R.Rect>)
    requires tm.Valid() && L.FrameStart(start) && L.RunValid(ops) && L.Run(tm, start, ops, s)
    requires s.Valid() && L.FrameBegun(s, d) && |shown| == SCREEN_CELLS && S.AllWaiting(shown, s.canvas, redraw, rs)
    ensures L.FrameStart(d) && L.ShowsEager(tm, start.video, ops, d)
    ensures S.AllWaiting(shown, d.canvas, redraw, rs) && Finishes(tm, start, ops, d)
  {
    L.LazyIsEager(tm, start, ops, s, d);
    FrameBegunGrows(s, d);
    S.WaitingKept(shown, s.canvas, d.canvas, redraw, rs);
  }

  // What is true between any two steps of display_frame
  ghost predicate Sound(paper: P.Display, border: B.BorderDisplay, screen: S.Screen)
    reads paper, paper.ram, paper.palette, paper.maybe, border, border.pixels
    reads screen, screen.rects, screen.shown, paper.buffers.Repr, border.buffers.Repr, screen.buffers.Repr
  {
    && Together(paper, border, screen) && paper.Valid() && border.Valid()
    && screen.Valid() && screen.Faithful()
  }

  // display_init, for a machine with the given timing, the border being black
  method Create(timing: Timing) returns (paper: P.Display, border: B.BorderDisplay, screen: S.Screen)
    requires timing.Valid() && timing.perLine >= B.LINE_TSTATES
    ensures fresh(paper.Repr + border.Repr + screen.Repr) && Sound(paper, border, screen) && paper.timing == timing
    ensures L.FrameStart(paper.Abs()) && paper.cx == 0 && paper.cy == 0
    ensures paper.tstates == 0 && paper.page == 5 && !paper.ulaplus && !paper.flash && paper.frames == 0
    ensures border.base == border.lastBorder == 0 && border.requests == []
  {
    paper := new P.Display(timing);
    paper.AllMarkedStarts();
    border := new B.BorderDisplay(paper.buffers, timing, false, 0);
    screen := new S.Screen(paper.buffers);
  }

  // The processor goes on
  method Elapse(paper: P.Display, border: B.BorderDisplay, screen: S.Screen, spent: nat)
    requires Sound(paper, border, screen) && paper.tstates + spent < P.NO_TSTATES
    modifies paper`tstates
    ensures Sound(paper, border, screen) && paper.Abs() == old(paper.Abs())
    ensures paper.tstates == old(paper.tstates) + spent
  {
    paper.Elapse(spent);
  }

  // The clock goes back by the length of the frame that has ended
  method TakeOff(paper: P.Display, border: B.BorderDisplay, screen: S.Screen, length: nat)
    requires Sound(paper, border, screen) && length <= paper.tstates
    modifies paper`tstates
    ensures Sound(paper, border, screen) && paper.Abs() == old(paper.Abs())
    ensures paper.tstates == old(paper.tstates) - length
  {
    paper.TakeOff(length);
  }

  // display_dirty_frame_begin, at the end of a frame in which ops were carried out
  method FinishPaper(paper: P.Display, border: B.BorderDisplay, screen: S.Screen,
                     ghost start: L.State, ghost ops: seq<L.Timed>)
    requires Sound(paper, border, screen)
    requires L.FrameStart(start) && L.RunValid(ops) && L.Leads(paper.timing, start, ops, paper.Abs())
    modifies paper`cachedTstates, paper`cx, paper`cy, paper`palettePending, paper.maybe, paper.buffers.Repr
    ensures Sound(paper, border, screen) && Finishes(paper.timing, start, ops, paper.Abs())
    ensures L.FrameStart(paper.Abs()) && L.ShowsEager(paper.timing, start.video, ops, paper.Abs())
  {
    ghost var s := paper.Abs();
    assert L.Run(paper.timing, start, ops, s);
    paper.FrameBegin();
    PaperFinished(paper.timing, start, ops, s, paper.Abs(), screen.shown[..], screen.redrawAll, screen.rects.inactive);
  }

  // display_border_frame, once the paper is finished, the border being in the given colour
  method FinishBorder(paper: P.Display, border: B.BorderDisplay, screen: S.Screen, colour: nat,
                      ghost start: L.State, ghost ops: seq<L.Timed>)
    requires Sound(paper, border, screen) && colour == border.lastBorder && B.IsBorderColour(colour)
    requires start.Valid() && L.OpsValid(ops) && L.FrameStart(paper.Abs())
    requires L.ShowsEager(paper.timing, start.video, ops, paper.Abs())
    modifies border`changes, border`base, border`events, border`requests, border.pixels, paper.buffers.Repr
    ensures Sound(paper, border, screen) && L.PaperKept(old(paper.Abs()), paper.Abs())
    ensures L.FrameStart(paper.Abs()) && L.ShowsEager(paper.timing, start.video, ops, paper.Abs())
    ensures BorderDone(paper.timing, old(border.base), old(border.requests), paper.buffers.Abs())
    ensures border.base == colour && border.events == border.requests == []
  {
    ghost var d, base, requests := paper.Abs(), border.base, border.requests;
    border.Frame(colour);
    ghost var e := paper.Abs();
    PaperSurvives(paper.timing, start.video, ops, d, e);
    S.WaitingKept(screen.shown[..], d.canvas, e.canvas, screen.redrawAll, screen.rects.inactive);
    BorderIsDone(paper.timing, base, requests, e.canvas);
  }

  // display_dirty_frame_end and update_ui_screen
  method UpdateWindow(screen: S.Screen, frameRate: int)
    requires screen.Valid() && screen.Faithful()
    modifies screen`frameCount, screen`redrawAll, screen.rects, screen.shown, screen.buffers.dirty
    ensures screen.Valid() && screen.Faithful()
    ensures frameRate <= old(screen.frameCount) + 1 ==> screen.shown[..] == screen.buffers.plotted[..]
    ensures frameRate > old(screen.frameCount) + 1 ==> screen.shown[..] == old(screen.shown[..])
    ensures forall y :: 0 <= y < SCREEN_HEIGHT ==> screen.buffers.dirty[y] == 0
  {
    ghost var c, rs := screen.buffers.Abs(), screen.rects.inactive;
    FitsZero(SCREEN_WIDTH_COLS);
    screen.UpdateDirtyRects(frameRate);
    S.WaitingMoved(screen.shown[..], c, screen.buffers.Abs(), screen.redrawAll, rs, screen.rects.inactive);
    screen.UpdateUiScreen(frameRate);
  }

  // Reporting the changed cells leaves the picture alone
  lemma ReportedSurvives(d: L.State, e: L.State)
    requires L.FrameStart(d) && e.Valid() && e == d.(canvas := d.canvas.(dirty := e.canvas.dirty))
    ensures L.PaperKept(d, e) && L.FrameStart(e)
  {
    assert L.PaperKept(d, e) by {
      forall x, y | IsPaper(x, y) ensures e.Plotted(x, y) == d.Plotted(x, y) {}
    }
    L.PaperKeptStart(d, e);
  }

  lemma WindowShows(shown: seq<Cell>, tm: Timing, v: Video, ops: seq<L.Timed>, d: L.State)
    requires tm.Valid() && v.Valid() && L.OpsValid(ops) && d.Valid() && shown == d.canvas.plotted
    requires L.ShowsEager(tm, v, ops, d)
    ensures PaperAsSeen(shown, tm, v, ops)
  {
    forall x, y | IsPaper(x, y)
      ensures shown[Index(x + BORDER_WIDTH_COLS, y + BORDER_HEIGHT)] == Fresh(L.InputsAt(tm, v, ops, Pos(x, y)), x, y)
    {
      var _ := d.Plotted(x, y);
    }
  }

  // Show the finished picture if it is due
  method ShowPicture(paper: P.Display, border: B.BorderDisplay, screen: S.Screen, frameRate: int,
                     ghost start: L.State, ghost ops: seq<L.Timed>, ghost base: nat, ghost requests: seq<B.Event>)
    requires Sound(paper, border, screen) && start.Valid() && L.OpsValid(ops) && L.FrameStart(paper.Abs())
    requires L.ShowsEager(paper.timing, start.video, ops, paper.Abs())
    requires BorderDone(paper.timing, base, requests, paper.buffers.Abs())
    modifies screen`frameCount, screen`redrawAll, screen.rects, screen.shown, screen.buffers.dirty
    ensures Sound(paper, border, screen) && L.FrameStart(paper.Abs()) && L.PaperKept(old(paper.Abs()), paper.Abs())
    ensures frameRate <= old(screen.frameCount) + 1 ==>
              PaperAsSeen(screen.shown[..], paper.timing, start.video, ops)
              && (BorderAsSeen(screen.shown[..], paper.timing, base, requests)
                  <==> B.OneChangeACell(paper.timing, base, requests))
  {
    ghost var d := paper.Abs();
    UpdateWindow(screen, frameRate);
    ReportedSurvives(d, paper.Abs());
    if frameRate <= old(screen.frameCount) + 1 {
      WindowShows(screen.shown[..], paper.timing, start.video, ops, d);
    }
  }

  // display_render_frame, in company
  method CountFrame(paper: P.Display, border: B.BorderDisplay, screen: S.Screen)
    requires Sound(paper, border, screen) && L.FrameStart(paper.Abs()) && paper.Now() == Point(0, 0)
    modifies paper`flash, paper`frames, paper`cachedTstates, paper`cachedX, paper`cachedY, paper`cx, paper`cy
    modifies paper.maybe, paper.buffers.Repr
    ensures Sound(paper, border, screen) && L.FrameStart(paper.Abs())
    ensures L.FlashCounted(old(paper.Abs()), paper.Abs())
  {
    ghost var e := paper.Abs();
    paper.RenderFrame();
    FlashSurvives(e, paper.Abs());
  }

  lemma FlashSurvives(m: L.State, e: L.State)
    requires L.FrameStart(m) && L.FlashCounted(m, e)
    ensures L.FrameStart(e)
  {
    forall x, y | IsPaper(x, y) && !e.Maybe(x, y) ensures L.Current(e, x, y) {
      L.FlashKeepsCell(m, e, x, y);
    }
  }

  // The first half of display_frame: draw what is left of the frame and the border
  method DrawFrame(paper: P.Display, border: B.BorderDisplay, screen: S.Screen, colour: nat,
                   ghost start: L.State, ghost ops: seq<L.Timed>)
    returns (ghost drawn: L.State)
    requires Sound(paper, border, screen) && colour == border.lastBorder && B.IsBorderColour(colour)
    requires L.FrameStart(start) && L.RunValid(ops) && L.Leads(paper.timing, start, ops, paper.Abs())
    modifies paper`cachedTstates, paper`cx, paper`cy, paper`palettePending, paper.maybe, paper.buffers.Repr
    modifies border`changes, border`base, border`events, border`requests, border.pixels
    ensures Sound(paper, border, screen) && L.FrameStart(paper.Abs())
    ensures drawn.Valid() && Finishes(paper.timing, start, ops, drawn) && L.PaperKept(drawn, paper.Abs())
    ensures L.ShowsEager(paper.timing, start.video, ops, paper.Abs())
    ensures BorderDone(paper.timing, old(border.base), old(border.requests), paper.buffers.Abs())
    ensures border.base == colour && border.events == border.requests == []
  {
    FinishPaper(paper, border, screen, start, ops);
    drawn := paper.Abs();
    FinishBorder(paper, border, screen, colour, start, ops);
  }

  // The second half: show the picture if it is due, and count the frame
  method PresentFrame(paper: P.Display, border: B.BorderDisplay, screen: S.Screen, frameRate: int,
                      ghost start: L.State, ghost ops: seq<L.Timed>, ghost drawn: L.State,
                      ghost base: nat, ghost requests: seq<B.Event>)
    requires Sound(paper, border, screen) && paper.Now() == Point(0, 0)
    requires start.Valid() && L.OpsValid(ops) && L.FrameStart(paper.Abs())
    requires drawn.Valid() && L.PaperKept(drawn, paper.Abs())
    requires L.ShowsEager(paper.timing, start.video, ops, paper.Abs())
    requires BorderDone(paper.timing, base, requests, paper.buffers.Abs())
    modifies paper`flash, paper`frames, paper`cachedTstates, paper`cachedX, paper`cachedY, paper`cx, paper`cy
    modifies paper.maybe, paper.buffers.Repr, screen`frameCount, screen`redrawAll, screen.rects, screen.shown
    ensures Sound(paper, border, screen) && L.FrameStart(paper.Abs()) && L.BetweenFrames(drawn, paper.Abs())
    ensures frameRate <= old(screen.frameCount) + 1 ==>
              PaperAsSeen(screen.shown[..], paper.timing, start.video, ops)
              && (BorderAsSeen(screen.shown[..], paper.timing, base, requests)
                  <==> B.OneChangeACell(paper.timing, base, requests))
  {
    ghost var d := paper.Abs();
    ShowPicture(paper, border, screen, frameRate, start, ops, base, requests);
    L.PaperKeptTwice(drawn, d, paper.Abs());
    CountFrame(paper, border, screen);
  }

  // display_frame. The frame is a whole frame of the deferred display. If it is due to be
  // shown, the window afterwards shows the paper as the beam saw it, and the border exactly
  // when two colours a cell are enough for it. Either way the next frame starts clean.
  method DisplayFrame(paper: P.Display, border: B.BorderDisplay, screen: S.Screen, colour: nat, frameRate: int,
                      ghost start: L.State, ghost ops: seq<L.Timed>)
    returns (ghost drawn: L.State)
    requires Sound(paper, border, screen) && colour == border.lastBorder && B.IsBorderColour(colour)
    requires L.FrameStart(start) && L.RunValid(ops) && L.Leads(paper.timing, start, ops, paper.Abs())
    requires paper.Now() == Point(0, 0)
    modifies paper`flash, paper`frames, paper`cachedTstates, paper`cachedX, paper`cachedY, paper`cx, paper`cy
    modifies paper`palettePending, paper.maybe, paper.buffers.Repr
    modifies border`changes, border`base, border`events, border`requests, border.pixels
    modifies screen`frameCount, screen`redrawAll, screen.rects, screen.shown
    ensures Sound(paper, border, screen) && border.base == colour && border.events == border.requests == []
    ensures L.FrameStart(paper.Abs()) && L.Spans(paper.timing, start, ops, drawn, paper.Abs())
    ensures L.InputsOf(paper.Abs()) == L.AfterFrame(L.InputsOf(start), ops)
    ensures frameRate <= old(screen.frameCount) + 1 ==>
              && PaperAsSeen(screen.shown[..], paper.timing, start.video, ops)
              && (BorderAsSeen(screen.shown[..], paper.timing, old(border.base), old(border.requests))
                  <==> old(B.OneChangeACell(paper.timing, border.base, border.requests)))
  {
    ghost var base, requests := border.base, border.requests;
    drawn := DrawFrame(paper, border, screen, colour, start, ops);
    PresentFrame(paper, border, screen, frameRate, start, ops, drawn, base, requests);
    L.WholeFrameIsEager(paper.timing, start, ops, drawn, paper.Abs());
  }
}
