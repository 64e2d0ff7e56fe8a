/** The deferred drawing of the paper as a state machine, and the proof that it shows the
    same picture as sampling every cell at the moment the beam passes it. */
module Lazy {
  import opened Bits
  import opened Video
  import opened Canvas
  import opened Beam

  // cx, cy: the critical position, up to which this frame's cells have been drawn
  datatype State = State(video: Video, canvas: CanvasState, maybe: seq<nat>, cx: nat, cy: nat,
                         palettePending: bool, frames: nat)
  {
    ghost predicate Valid() {
      && video.Valid() && canvas.Valid() && canvas.Recorded()
      && |maybe| == HEIGHT && (forall y :: 0 <= y < HEIGHT ==> Fits(maybe[y], WIDTH_COLS))
      && cx <= WIDTH_COLS && cy < HEIGHT
    }

    function Critical(): nat { Pos(cx, cy) }

    // Is cell (x, y) maybe dirty?
    predicate Maybe(x: nat, y: nat)
      requires |maybe| == HEIGHT && y < HEIGHT
    {
      Bit(maybe[y], x)
    }

    function Plotted(x: nat, y: nat): Cell
      requires canvas.Valid() && IsPaper(x, y)
    {
      canvas.plotted[Index(x + BORDER_WIDTH_COLS, y + BORDER_HEIGHT)]
    }
  }

  // Draw paper cell (x, y) unless its record is the one a fresh draw would leave
  function DrawPaper(v: Video, c: CanvasState, x: nat, y: nat): CanvasState
    requires v.Valid() && c.Valid() && IsPaper(x, y)
  {
    Put(c, x + BORDER_WIDTH_COLS, y + BORDER_HEIGHT, FreshWord(v, x, y), FreshColours(v, x, y), Fresh(v, x, y))
  }

  // A set of paper cells, by column and line
  type Cells = (int, int) -> bool

  // Is (x, y) a paper cell that a flush of the positions lo <= k < hi draws?
  predicate Flushes(s: State, lo: nat, hi: nat, x: int, y: int)
    requires |s.maybe| == HEIGHT
  {
    IsPaper(x, y) && lo <= Pos(x, y) < hi && s.Maybe(x, y)
  }

  ghost predicate CanvasFlushed(s: State, c: CanvasState, lo: nat, hi: nat)
    requires s.Valid() && c.Valid()
  {
    forall x, y {:trigger c.SameCell(s.canvas, x, y)} :: OnScreen(x, y) ==>
      if Flushes(s, lo, hi, x - BORDER_WIDTH_COLS, y - BORDER_HEIGHT)
      then c.SameCell(DrawPaper(s.video, s.canvas, x - BORDER_WIDTH_COLS, y - BORDER_HEIGHT), x, y)
      else c.SameCell(s.canvas, x, y)
  }

  // From s to d: the maybe dirty cells in lo <= k < hi were drawn and cleared, then the
  // cells of marks were marked, and nothing else happened.
  ghost predicate Flushed(s: State, d: State, lo: nat, hi: nat, marks: Cells)
    requires s.Valid()
  {
    && d.Valid()
    && d.video == s.video && d.palettePending == s.palettePending && d.frames == s.frames
    && CanvasFlushed(s, d.canvas, lo, hi)
    && forall x, y {:trigger d.Maybe(x, y)} :: IsPaper(x, y) ==>
         d.Maybe(x, y) == (marks(x, y) || (s.Maybe(x, y) && !(lo <= Pos(x, y) < hi)))
  }

  // The display went from s to d, catching up with the beam at p if hit holds
  ghost predicate Caught(s: State, d: State, p: Point, hit: bool, marks: Cells)
    requires s.Valid() && 0 <= p.x <= WIDTH_COLS && 0 <= p.y < HEIGHT
  {
    && Flushed(s, d, s.Critical(), if hit then Pos(p.x, p.y) else s.Critical(), marks)
    && (if hit then d.cx == p.x && d.cy == p.y else d.cx == s.cx && d.cy == s.cy)
  }

  const NO_CELLS: Cells := (x, y) => false
  const ALL_CELLS: Cells := (x, y) => true

  // The cells that show the byte at an offset into the screen page
  predicate Touches(offset: nat, x: int, y: int) {
    if offset < PIXEL_BYTES then x == PixelCol(offset) && y == PixelLine(offset)
    else x == (offset - PIXEL_BYTES) % 32 && IsPaper(x, y) && y / 8 == (offset - PIXEL_BYTES) / 32
  }

  // What a program can do to the picture
  datatype Op =
    | Write(page: nat, offset: nat, b: byte)   // store b in a RAM page
    | SetPalette(entry: nat, b: byte)          // ULA+ palette entry
    | SetMode(on: bool)                        // ULA+ mode
    | SwitchScreen(page: nat)                  // show another RAM page
    | RefreshAll                               // display_refresh_all

  predicate OpValid(op: Op) {
    match op
    case Write(page, offset, b) => page < RAM_PAGES && offset < RAM_PAGE
    case SetPalette(entry, b) => entry < PALETTE_SIZE
    case SwitchScreen(page) => page < RAM_PAGES
    case _ => true
  }

  function Apply(v: Video, op: Op): (r: Video)
    requires v.Valid() && OpValid(op)
    ensures r.Valid() && r.flash == v.flash
  {
    match op
    case Write(page, offset, b) => v.(ram := v.ram[page * RAM_PAGE + offset := b])
    case SetPalette(entry, b) => v.(palette := v.palette[entry := b])
    case SetMode(on) => v.(ulaplus := on)
    case SwitchScreen(page) => v.(page := page)
    case RefreshAll => v
  }

  // Does the dirty hook take notice of a write? Only on a real change to the shown file
  predicate Noticed(v: Video, op: Op)
    requires v.Valid() && OpValid(op)
  {
    op.Write? && op.page == v.page && op.offset < FILE_SIZE && v.ram[op.page * RAM_PAGE + op.offset] != op.b
  }

  predicate PaletteChanges(v: Video, op: Op)
    requires v.Valid() && OpValid(op)
  {
    (op.SetPalette? && v.palette[op.entry] != op.b && v.ulaplus) || (op.SetMode? && v.ulaplus != op.on)
  }

  // Does an operation carried out with the beam at p make the display catch up with it?
  ghost predicate CatchesUp(s: State, op: Op, p: Point)
    requires s.Valid() && OpValid(op) && 0 <= p.x <= WIDTH_COLS && 0 <= p.y < HEIGHT
  {
    || (Noticed(s.video, op)
        && exists x, y :: IsPaper(x, y) && Touches(op.offset, x, y) && s.Critical() <= Pos(x, y) < Pos(p.x, p.y))
    || (PaletteChanges(s.video, op) && (p.y > s.cy || (p.y == s.cy && p.x > s.cx)))
    || (op.SwitchScreen? && op.page != s.video.page && 0 < Pos(p.x, p.y))
  }

  function Marks(s: State, op: Op, passed: nat): Cells
    requires s.Valid() && OpValid(op)
  {
    if Noticed(s.video, op) then (x, y) => Touches(op.offset, x, y)
    else if PaletteChanges(s.video, op) then (x: int, y: int) => 32 * y + x >= passed
    else if op.SwitchScreen? && op.page != s.video.page then ALL_CELLS
    else NO_CELLS
  }

  // One operation at a moment when the beam is at the point p of the paper
  ghost predicate Next(s: State, p: Point, op: Op, d: State)
    requires s.Valid() && OpValid(op) && 0 <= p.x <= WIDTH_COLS && 0 <= p.y < HEIGHT
  {
    var passed := Pos(p.x, p.y);
    if op.RefreshAll? then
      && d.Valid() && d == s.(canvas := d.canvas, maybe := d.maybe)
      && d.canvas.plotted == s.canvas.plotted
      && (forall i :: 0 <= i < SCREEN_CELLS ==> d.canvas.last[i] == INVALID)
      && (forall x, y {:trigger d.canvas.DirtyAt(x, y)} :: OnScreen(x, y) ==> d.canvas.DirtyAt(x, y))
      && forall x, y {:trigger d.Maybe(x, y)} :: IsPaper(x, y) ==> d.Maybe(x, y)
    else
      && d.Valid()
      && Caught(s, d.(video := s.video, palettePending := s.palettePending), p, CatchesUp(s, op, p),
                Marks(s, op, passed))
      && d.video == Apply(s.video, op)
      && d.palettePending == (s.palettePending || PaletteChanges(s.video, op))
  }

  // display_dirty_frame_begin: draw the rest of the frame just ended and start over
  ghost predicate FrameBegun(s: State, d: State)
    requires s.Valid()
  {
    && d.Valid() && d.cx == 0 && d.cy == 0 && !d.palettePending
    && Flushed(s, d.(palettePending := s.palettePending), s.Critical(), PIXEL_BYTES,
               if s.palettePending then ALL_CELLS else NO_CELLS)
  }

  // Drawing the border and reporting changed cells leave the paper as it is
  ghost predicate PaperKept(s: State, d: State)
    requires s.Valid()
  {
    && d.Valid() && d == s.(canvas := d.canvas)
    && forall x, y {:trigger d.Plotted(x, y)} :: IsPaper(x, y) ==>
         var i := Index(x + BORDER_WIDTH_COLS, y + BORDER_HEIGHT);
         d.canvas.last[i] == s.canvas.last[i] && d.canvas.colours[i] == s.canvas.colours[i]
         && d.Plotted(x, y) == s.Plotted(x, y)
  }

  // What display_frame_count comes to
  function Counted(frames: nat): nat { if frames + 1 == 32 then 0 else frames + 1 }

  // And the flash phase with it
  function Turned(frames: nat, flash: bool): bool {
    if frames + 1 == 16 then true else if frames + 1 == 32 then false else flash
  }

  // display_render_frame: count the frame and toggle the flash phase every sixteen
  ghost predicate FlashCounted(s: State, d: State)
    requires s.Valid()
  {
    && d.Valid()
    && d.video == s.video.(flash := Turned(s.frames, s.video.flash)) && d.canvas == s.canvas
    && d.cx == s.cx && d.cy == s.cy && d.palettePending == s.palettePending
    && d.frames == Counted(s.frames)
    && forall x, y {:trigger d.Maybe(x, y)} :: IsPaper(x, y) ==>
         d.Maybe(x, y) == (s.Maybe(x, y)
           || ((s.frames + 1 == 16 || s.frames + 1 == 32) && !s.video.ulaplus && s.video.Attr(x, y) >= 128))
  }

  // The record of paper cell (x, y) is what the current inputs give. Bit 24 may differ
  // where it makes no difference.
  ghost predicate Current(s: State, x: nat, y: nat)
    requires s.Valid() && IsPaper(x, y)
  {
    var i := Index(x + BORDER_WIDTH_COLS, y + BORDER_HEIGHT);
    var w := s.canvas.last[i];
    && w != INVALID && WordUlaplus(w) == s.video.ulaplus
    && WordData(w) == s.video.Data(x, y) && WordAttr(w) == s.video.Attr(x, y)
    && (s.video.ulaplus ==> s.canvas.colours[i] == FreshColours(s.video, x, y))
    && (!s.video.ulaplus && s.video.Attr(x, y) >= 128 ==> WordFlash(w) == s.video.flash)
  }

  // Clean means current: a current record decodes, and the plotted cell is, what a fresh draw gives
  lemma CurrentShowsFresh(s: State, x: nat, y: nat)
    requires s.Valid() && IsPaper(x, y) && Current(s, x, y)
    ensures s.Plotted(x, y) == Fresh(s.video, x, y)
    ensures forall i :: 0 <= i < 8 ==>
              GetPixel(s.canvas, s.video.flash, 8 * (x + BORDER_WIDTH_COLS) + i, y + BORDER_HEIGHT)
              == CellPixel(Fresh(s.video, x, y), i)
  {
    var v := s.video;
    var X, Y := x + BORDER_WIDTH_COLS, y + BORDER_HEIGHT;
    RecordOfFreshDraw(v, x, y);
    forall i | 0 <= i < 8
      ensures GetPixel(s.canvas, v.flash, 8 * X + i, Y) == CellPixel(Fresh(v, x, y), i)
    {
      var px := 8 * X + i;
      assert px / 8 == X && px % 8 == i;
      GetPixelReadsPlotted(s.canvas, v.flash, px, Y);
    }
  }

  // Nothing a draw of (x, y) looks at differs between v and w
  predicate SameInputs(v: Video, w: Video, x: nat, y: nat)
    requires v.Valid() && w.Valid() && IsPaper(x, y)
  {
    && v.Data(x, y) == w.Data(x, y) && v.Attr(x, y) == w.Attr(x, y) && v.ulaplus == w.ulaplus
    && (v.ulaplus ==> UlaplusInk(v, v.Attr(x, y)) == UlaplusInk(w, v.Attr(x, y))
                      && UlaplusPaper(v, v.Attr(x, y)) == UlaplusPaper(w, v.Attr(x, y)))
    && (!v.ulaplus && v.Attr(x, y) >= 128 ==> v.flash == w.flash)
  }

  // A store that is not to a byte shown by a cell leaves the cell alone
  lemma WriteMisses(v: Video, op: Op, x: nat, y: nat)
    requires v.Valid() && OpValid(op) && op.Write? && IsPaper(x, y)
    requires !Noticed(v, op) || !Touches(op.offset, x, y)
    ensures SameInputs(v, Apply(v, op), x, y)
  {
    if Noticed(v, op) {
      if op.offset < PIXEL_BYTES {
        PixelAddressBijection(op.offset, x, y);
      } else {
        AttrAddress(op.offset, x, y);
      }
    }
  }

  // Every cell whose inputs an operation changes is marked, or lies behind the beam when
  // the palette changes
  lemma UnmarkedKeepInputs(s: State, op: Op, passed: nat, x: nat, y: nat)
    requires s.Valid() && OpValid(op) && IsPaper(x, y) && !Marks(s, op, passed)(x, y)
    requires PaletteChanges(s.video, op) ==> Pos(x, y) >= passed
    ensures SameInputs(s.video, Apply(s.video, op), x, y)
  {
    if op.Write? { WriteMisses(s.video, op, x, y); }
  }

  // After a flush of everything from the critical position to hi, the flushed cells show
  // the current inputs, and so does every clean cell in front
  lemma FlushShows(s: State, d: State, hi: nat, marks: Cells)
    requires s.Valid() && Flushed(s, d, s.Critical(), hi, marks)
    requires forall x, y :: IsPaper(x, y) && Pos(x, y) >= s.Critical() && !s.Maybe(x, y) ==> Current(s, x, y)
    ensures forall x, y :: IsPaper(x, y) && s.Critical() <= Pos(x, y) < hi ==> Current(d, x, y)
    ensures forall x, y :: IsPaper(x, y) && !(s.Critical() <= Pos(x, y) < hi) ==>
              (Current(d, x, y) <==> Current(s, x, y)) && d.Plotted(x, y) == s.Plotted(x, y)
  {
    forall x, y | IsPaper(x, y)
      ensures s.Critical() <= Pos(x, y) < hi ==> Current(d, x, y)
      ensures !(s.Critical() <= Pos(x, y) < hi) ==>
                (Current(d, x, y) <==> Current(s, x, y)) && d.Plotted(x, y) == s.Plotted(x, y)
    {
      var X, Y := x + BORDER_WIDTH_COLS, y + BORDER_HEIGHT;
      if Flushes(s, s.Critical(), hi, x, y) {
        assert d.canvas.SameCell(DrawPaper(s.video, s.canvas, x, y), X, Y) by {
          var _ := d.canvas.SameCell(s.canvas, X, Y);
        }
        RecordOfFreshDraw(s.video, x, y);
        PutShows(s.canvas, X, Y, FreshWord(s.video, x, y), FreshColours(s.video, x, y), Fresh(s.video, x, y));
      } else {
        assert d.canvas.SameCell(s.canvas, X, Y);
      }
    }
  }

  // ---------------------------------------------------------------- eager specification

  datatype Timed = Timed(t: nat, op: Op)

  predicate OpsValid(ops: seq<Timed>) {
    forall i :: 0 <= i < |ops| ==> OpValid(ops[i].op)
  }

  // The operations of one frame, in order of time
  predicate RunValid(ops: seq<Timed>) {
    && OpsValid(ops)
    && (forall i, j :: 0 <= i < j < |ops| ==> ops[i].t <= ops[j].t)
  }

  function ApplyAll(v: Video, ops: seq<Timed>): (r: Video)
    requires v.Valid() && OpsValid(ops)
    ensures r.Valid() && r.flash == v.flash
    decreases |ops|
  {
    if ops == [] then v else ApplyAll(Apply(v, ops[0].op), ops[1..])
  }

  // The inputs in force when the beam passes position k: those left by the operations
  // carried out before the first one that finds the beam beyond k
  function InputsAt(tm: Timing, v: Video, ops: seq<Timed>, k: nat): (r: Video)
    requires tm.Valid() && v.Valid() && OpsValid(ops)
    ensures r.Valid()
    decreases |ops|
  {
    if ops == [] || k < Passed(tm, ops[0].t) then v
    else InputsAt(tm, Apply(v, ops[0].op), ops[1..], k)
  }

  // The picture of one frame, every cell sampled as the beam passes it
  ghost predicate ShowsEager(tm: Timing, v: Video, ops: seq<Timed>, d: State)
    requires tm.Valid() && v.Valid() && d.Valid() && OpsValid(ops)
  {
    forall x, y {:trigger d.Plotted(x, y)} :: IsPaper(x, y) ==>
      d.Plotted(x, y) == Fresh(InputsAt(tm, v, ops, Pos(x, y)), x, y)
  }

  // ---------------------------------------------------------------- refinement

  // Does the deferred display go from s to d by carrying out ops?
  ghost predicate Run(tm: Timing, s: State, ops: seq<Timed>, d: State)
    requires tm.Valid() && s.Valid() && OpsValid(ops)
    decreases |ops|
  {
    var n := |ops| - 1;
    if ops == [] then d == s
    else
      exists m: State {:trigger Run(tm, s, ops[..n], m)} ::
        m.Valid() && Run(tm, s, ops[..n], m) && Next(m, PaperBeam(tm, ops[n].t), ops[n].op, d)
  }

  // There is such a run to d. A proof looks into it only where it names the run.
  ghost predicate Leads(tm: Timing, s: State, ops: seq<Timed>, d: State)
    requires tm.Valid() && s.Valid() && OpsValid(ops)
  {
    forall e: State {:trigger Run(tm, s, ops, e)} :: e == d ==> Run(tm, s, ops, e)
  }

  type Picture = (int, int) -> Cell

  // The inputs that decide what position k will show, when the beam has passed `passed`
  // cells and ops are still to come
  function Deciding(tm: Timing, v: Video, ops: seq<Timed>, passed: nat, k: nat): (r: Video)
    requires tm.Valid() && v.Valid() && OpsValid(ops)
    ensures r.Valid()
  {
    if k < passed then v else InputsAt(tm, v, ops, k)
  }

  // Behind the critical position the target is plotted. Between there and the beam the
  // current inputs decide. Clean cells are current, unless a palette change waits for the
  // next frame and the cell is behind the critical position.
  ghost predicate Inv(tm: Timing, s: State, ops: seq<Timed>, passed: nat, target: Picture)
    requires tm.Valid() && OpsValid(ops)
  {
    && s.Valid() && s.Critical() <= passed <= PIXEL_BYTES
    && (forall x, y {:trigger target(x, y)} :: IsPaper(x, y) ==>
          if Pos(x, y) < s.Critical() then s.Plotted(x, y) == target(x, y)
          else Fresh(Deciding(tm, s.video, ops, passed, Pos(x, y)), x, y) == target(x, y))
    && (forall x, y {:trigger s.Maybe(x, y)} :: IsPaper(x, y) ==>
          (!s.Maybe(x, y) && (Pos(x, y) >= s.Critical() || !s.palettePending) ==> Current(s, x, y)))
  }

  lemma SameInputsCurrent(s: State, d: State, x: nat, y: nat)
    requires s.Valid() && d.Valid() && IsPaper(x, y) && d.canvas == s.canvas
    requires SameInputs(s.video, d.video, x, y)
    ensures Fresh(s.video, x, y) == Fresh(d.video, x, y)
    ensures Current(s, x, y) <==> Current(d, x, y)
  {
  }

  // One operation keeps the invariant
  lemma StepInv(tm: Timing, s: State, ops: seq<Timed>, passed: nat, target: Picture, d: State)
    requires tm.Valid() && RunValid(ops) && ops != []
    requires Inv(tm, s, ops, passed, target)
    requires passed <= Passed(tm, ops[0].t)
    requires Next(s, PaperBeam(tm, ops[0].t), ops[0].op, d)
    ensures Inv(tm, d, ops[1..], Passed(tm, ops[0].t), target)
  {
    var op, now := ops[0].op, Passed(tm, ops[0].t);
    if op.RefreshAll? {
      RefreshInv(tm, s, ops, passed, target, d);
    } else {
      forall x, y | IsPaper(x, y)
        ensures if Pos(x, y) < d.Critical() then d.Plotted(x, y) == target(x, y)
                else Fresh(Deciding(tm, d.video, ops[1..], now, Pos(x, y)), x, y) == target(x, y)
      {
        StepPicture(tm, s, ops, passed, target, d, x, y);
      }
      forall x, y | IsPaper(x, y) && !d.Maybe(x, y) && (Pos(x, y) >= d.Critical() || !d.palettePending)
        ensures Current(d, x, y)
      {
        StepClean(tm, s, ops, passed, target, d, x, y);
      }
    }
  }

  lemma RefreshInv(tm: Timing, s: State, ops: seq<Timed>, passed: nat, target: Picture, d: State)
    requires tm.Valid() && RunValid(ops) && ops != [] && ops[0].op.RefreshAll?
    requires Inv(tm, s, ops, passed, target)
    requires passed <= Passed(tm, ops[0].t)
    requires Next(s, PaperBeam(tm, ops[0].t), ops[0].op, d)
    ensures Inv(tm, d, ops[1..], Passed(tm, ops[0].t), target)
  {
    forall x, y | IsPaper(x, y)
      ensures if Pos(x, y) < d.Critical() then d.Plotted(x, y) == target(x, y)
              else Fresh(Deciding(tm, d.video, ops[1..], Passed(tm, ops[0].t), Pos(x, y)), x, y) == target(x, y)
    {
      var _ := target(x, y);
    }
  }

  // What is drawn is what was to be shown, and what is still to be drawn is still in memory
  lemma StepPicture(tm: Timing, s: State, ops: seq<Timed>, passed: nat, target: Picture, d: State, x: nat, y: nat)
    requires tm.Valid() && RunValid(ops) && ops != [] && !ops[0].op.RefreshAll? && IsPaper(x, y)
    requires Inv(tm, s, ops, passed, target)
    requires passed <= Passed(tm, ops[0].t)
    requires Next(s, PaperBeam(tm, ops[0].t), ops[0].op, d)
    ensures if Pos(x, y) < d.Critical() then d.Plotted(x, y) == target(x, y)
            else Fresh(Deciding(tm, d.video, ops[1..], Passed(tm, ops[0].t), Pos(x, y)), x, y) == target(x, y)
  {
    var op, now, k := ops[0].op, Passed(tm, ops[0].t), Pos(x, y);
    var f := d.(video := s.video, palettePending := s.palettePending);
    var hi := if CatchesUp(s, op, PaperBeam(tm, ops[0].t)) then now else s.Critical();
    FlushShows(s, f, hi, Marks(s, op, now));
    var _ := target(x, y);
    if d.Critical() <= k < now {
      UnmarkedKeepInputs(s, op, now, x, y);
      SameInputsCurrent(f, d, x, y);
    } else if s.Critical() <= k < d.Critical() {
      CurrentShowsFresh(f, x, y);
    }
  }

  lemma StepClean(tm: Timing, s: State, ops: seq<Timed>, passed: nat, target: Picture, d: State, x: nat, y: nat)
    requires tm.Valid() && RunValid(ops) && ops != [] && !ops[0].op.RefreshAll? && IsPaper(x, y)
    requires Inv(tm, s, ops, passed, target)
    requires passed <= Passed(tm, ops[0].t)
    requires Next(s, PaperBeam(tm, ops[0].t), ops[0].op, d)
    requires !d.Maybe(x, y) && (Pos(x, y) >= d.Critical() || !d.palettePending)
    ensures Current(d, x, y)
  {
    var op, now := ops[0].op, Passed(tm, ops[0].t);
    var f := d.(video := s.video, palettePending := s.palettePending);
    var hi := if CatchesUp(s, op, PaperBeam(tm, ops[0].t)) then now else s.Critical();
    FlushShows(s, f, hi, Marks(s, op, now));
    var _ := f.Maybe(x, y);
    UnmarkedKeepInputs(s, op, now, x, y);
    SameInputsCurrent(f, d, x, y);
  }

  // A run goes on with one more operation
  lemma RunAppend(tm: Timing, s: State, ops: seq<Timed>, m: State, last: Timed, d: State)
    requires tm.Valid() && s.Valid() && m.Valid() && OpsValid(ops) && OpValid(last.op)
    requires Run(tm, s, ops, m) && Next(m, PaperBeam(tm, last.t), last.op, d)
    ensures OpsValid(ops + [last]) && Run(tm, s, ops + [last], d)
  {
    assert (ops + [last])[..|ops|] == ops;
  }

  // The inputs are those that the operations leave, and no frame is counted
  lemma {:induction false} RunVideo(tm: Timing, s: State, ops: seq<Timed>, n: nat, d: State)
    requires tm.Valid() && s.Valid() && OpsValid(ops) && n <= |ops| && Run(tm, s, ops[..n], d)
    ensures d.video == ApplyAll(s.video, ops[..n]) && d.frames == s.frames
    decreases n
  {
    if n > 0 {
      var m := RunSplits(tm, s, ops, n, d);
      RunVideo(tm, s, ops, n - 1, m);
      ApplyAllAppend(s.video, ops, n - 1);
    }
  }

  // How far the beam has got when the last of ops is carried out
  function BeamAfter(tm: Timing, ops: seq<Timed>, passed: nat): nat
    requires tm.Valid()
  {
    if ops == [] then passed else Passed(tm, ops[|ops| - 1].t)
  }

  lemma {:induction false} ApplyAllAppend(v: Video, ops: seq<Timed>, n: nat)
    requires v.Valid() && OpsValid(ops) && n < |ops|
    ensures ApplyAll(v, ops[..n + 1]) == Apply(ApplyAll(v, ops[..n]), ops[n].op)
    decreases n
  {
    assert ops[..n + 1] == ops[..n] + [ops[n]];
    if n > 0 {
      assert ops[..n + 1][1..] == ops[1..][..n] && ops[..n][1..] == ops[1..][..n - 1];
      ApplyAllAppend(Apply(v, ops[0].op), ops[1..], n - 1);
    }
  }

  // The first n operations keep the invariant, the others being still to come
  lemma {:induction false} RunInv(tm: Timing, s: State, ops: seq<Timed>, n: nat, target: Picture, d: State)
    requires tm.Valid() && RunValid(ops) && n <= |ops| && Inv(tm, s, ops, 0, target)
    requires Run(tm, s, ops[..n], d)
    ensures Inv(tm, d, ops[n..], BeamAfter(tm, ops[..n], 0), target)
    ensures d.video == ApplyAll(s.video, ops[..n])
    decreases n
  {
    if n == 0 {
      assert ops[0..] == ops;
    } else {
      var m := RunSplits(tm, s, ops, n, d);
      RunInv(tm, s, ops, n - 1, target, m);
      RunInvStep(tm, ops, n, target, m, d);
      ApplyAllAppend(s.video, ops, n - 1);
    }
  }

  lemma RunSplits(tm: Timing, s: State, ops: seq<Timed>, n: nat, d: State) returns (m: State)
    requires tm.Valid() && s.Valid() && OpsValid(ops) && 0 < n <= |ops| && Run(tm, s, ops[..n], d)
    ensures m.Valid() && Run(tm, s, ops[..n - 1], m) && Next(m, PaperBeam(tm, ops[n - 1].t), ops[n - 1].op, d)
  {
    assert ops[..n][..n - 1] == ops[..n - 1] && ops[..n][n - 1] == ops[n - 1];
    m :| m.Valid() && Run(tm, s, ops[..n - 1], m) && Next(m, PaperBeam(tm, ops[n - 1].t), ops[n - 1].op, d);
  }

  lemma RunInvStep(tm: Timing, ops: seq<Timed>, n: nat, target: Picture, m: State, d: State)
    requires tm.Valid() && RunValid(ops) && 0 < n <= |ops|
    requires Inv(tm, m, ops[n - 1..], BeamAfter(tm, ops[..n - 1], 0), target)
    requires Next(m, PaperBeam(tm, ops[n - 1].t), ops[n - 1].op, d)
    ensures Inv(tm, d, ops[n..], BeamAfter(tm, ops[..n], 0), target)
  {
    if n > 1 { PassedMonotone(tm, ops[n - 2].t, ops[n - 1].t); }
    assert ops[n - 1..][0] == ops[n - 1] && ops[n - 1..][1..] == ops[n..];
    StepInv(tm, m, ops[n - 1..], BeamAfter(tm, ops[..n - 1], 0), target, d);
  }

  // A frame starts with nothing drawn and every clean cell current
  ghost predicate FrameStart(s: State) {
    && s.Valid() && s.Critical() == 0 && !s.palettePending
    && forall x, y {:trigger s.Maybe(x, y)} :: IsPaper(x, y) ==> (!s.Maybe(x, y) ==> Current(s, x, y))
  }

  function EagerPicture(tm: Timing, v: Video, ops: seq<Timed>): Picture
    requires tm.Valid() && v.Valid() && OpsValid(ops)
  {
    (x: int, y: int) =>
      if IsPaper(x, y) then Fresh(InputsAt(tm, v, ops, Pos(x, y)), x, y) else Cell(0, 0, 0)
  }

  // Throughout a frame: if no palette change is waiting, every clean cell shows, and reads
  // back as, what a fresh draw would give
  lemma CleanMeansCurrent(tm: Timing, s: State, ops: seq<Timed>, d: State, x: nat, y: nat)
    requires tm.Valid() && FrameStart(s) && RunValid(ops) && Run(tm, s, ops, d)
    requires IsPaper(x, y) && d.Valid() && !d.Maybe(x, y) && !d.palettePending
    ensures d.Plotted(x, y) == Fresh(d.video, x, y)
    ensures forall i :: 0 <= i < 8 ==>
              GetPixel(d.canvas, d.video.flash, 8 * (x + BORDER_WIDTH_COLS) + i, y + BORDER_HEIGHT)
              == CellPixel(Fresh(d.video, x, y), i)
  {
    assert ops[..|ops|] == ops && ops[|ops|..] == [];
    RunInv(tm, s, ops, |ops|, EagerPicture(tm, s.video, ops), d);
    CurrentShowsFresh(d, x, y);
  }

  // Lazy equals eager: at the end of a frame every paper cell shows the inputs in force as
  // the beam passed it, and the next frame starts clean
  lemma {:induction false} LazyIsEager(tm: Timing, s: State, ops: seq<Timed>, m: State, d: State)
    requires tm.Valid() && FrameStart(s) && RunValid(ops) && Run(tm, s, ops, m)
    requires m.Valid() && FrameBegun(m, d)
    ensures d.Valid() && ShowsEager(tm, s.video, ops, d) && FrameStart(d)
    ensures d.video == ApplyAll(s.video, ops)
  {
    var target := EagerPicture(tm, s.video, ops);
    assert ops[..|ops|] == ops && ops[|ops|..] == [];
    RunInv(tm, s, ops, |ops|, target, m);
    var f := d.(palettePending := m.palettePending);
    var marks := if m.palettePending then ALL_CELLS else NO_CELLS;
    FlushShows(m, f, PIXEL_BYTES, marks);
    forall x, y | IsPaper(x, y)
      ensures d.Plotted(x, y) == target(x, y)
      ensures !d.Maybe(x, y) ==> Current(d, x, y)
    {
      if Pos(x, y) >= m.Critical() { CurrentShowsFresh(f, x, y); }
      if !d.Maybe(x, y) {
        var _ := f.Maybe(x, y);
        SameInputsCurrent(f, d, x, y);
      }
    }
  }

  // From the end of one frame's picture to the start of the next frame's operations
  ghost predicate BetweenFrames(d: State, e: State)
    requires d.Valid()
  {
    exists m: State :: PaperKept(d, m) && FlashCounted(m, e)
  }

  lemma PaperKeptTwice(d: State, m: State, e: State)
    requires d.Valid() && PaperKept(d, m) && PaperKept(m, e)
    ensures PaperKept(d, e)
  {
    forall x, y | IsPaper(x, y)
      ensures var i := Index(x + BORDER_WIDTH_COLS, y + BORDER_HEIGHT);
              e.canvas.last[i] == d.canvas.last[i] && e.canvas.colours[i] == d.canvas.colours[i]
              && e.Plotted(x, y) == d.Plotted(x, y)
    {
      var _, _ := m.Plotted(x, y), e.Plotted(x, y);
    }
  }

  lemma PaperKeptStart(d: State, m: State)
    requires FrameStart(d) && PaperKept(d, m)
    ensures FrameStart(m)
  {
    forall x, y | IsPaper(x, y) && !m.Maybe(x, y) ensures Current(m, x, y) {
      var _, _ := d.Maybe(x, y), m.Plotted(x, y);
    }
  }

  // The phase changes only in the frames that mark the flashing cells
  lemma FlashKeepsCell(m: State, e: State, x: nat, y: nat)
    requires FrameStart(m) && FlashCounted(m, e) && IsPaper(x, y) && !e.Maybe(x, y)
    ensures Current(e, x, y)
  {
    var _ := m.Maybe(x, y);
    SameInputsCurrent(m, e, x, y);
  }

  lemma BetweenKeepsStart(d: State, e: State)
    requires FrameStart(d) && BetweenFrames(d, e)
    ensures FrameStart(e) && e.video == d.video.(flash := Turned(d.frames, d.video.flash))
    ensures e.frames == Counted(d.frames)
  {
    var m: State :| PaperKept(d, m) && FlashCounted(m, e);
    PaperKeptStart(d, m);
    forall x, y | IsPaper(x, y) && !e.Maybe(x, y) ensures Current(e, x, y) {
      FlashKeepsCell(m, e, x, y);
    }
  }

  // One whole frame: from s carry out ops, finish the picture in d, and get ready in e
  ghost predicate WholeFrame(tm: Timing, s: State, ops: seq<Timed>, d: State, e: State)
    requires tm.Valid()
  {
    && s.Valid() && RunValid(ops) && d.Valid()
    && (exists m: State {:trigger Run(tm, s, ops, m)} :: m.Valid() && Run(tm, s, ops, m) && FrameBegun(m, d))
    && BetweenFrames(d, e)
  }

  // The same, for proofs that need not look into the frame
  ghost predicate Spans(tm: Timing, s: State, ops: seq<Timed>, d: State, e: State)
    requires tm.Valid()
  {
    forall end: State {:trigger WholeFrame(tm, s, ops, d, end)} :: end == e ==> WholeFrame(tm, s, ops, d, end)
  }

  // What the picture depends on from frame to frame: memory, palette, mode, screen and flash
  // phase, and the counter that turns the phase
  datatype Inputs = Inputs(video: Video, frames: nat)

  function InputsOf(s: State): Inputs { Inputs(s.video, s.frames) }

  // What a frame does to them
  function AfterFrame(i: Inputs, ops: seq<Timed>): (r: Inputs)
    requires i.video.Valid() && OpsValid(ops)
    ensures r.video.Valid()
  {
    Inputs(ApplyAll(i.video, ops).(flash := Turned(i.frames, i.video.flash)), Counted(i.frames))
  }

  lemma WholeFrameIsEager(tm: Timing, s: State, ops: seq<Timed>, d: State, e: State)
    requires tm.Valid() && FrameStart(s) && WholeFrame(tm, s, ops, d, e)
    ensures ShowsEager(tm, s.video, ops, d)
    ensures FrameStart(e) && InputsOf(e) == AfterFrame(InputsOf(s), ops)
  {
    var m: State :| m.Valid() && Run(tm, s, ops, m) && FrameBegun(m, d);
    LazyIsEager(tm, s, ops, m, d);
    assert ops[..|ops|] == ops;
    RunVideo(tm, s, ops, |ops|, m);
    BetweenKeepsStart(d, e);
  }

  // A frame as it was filmed: its start, what happened in it, and the finished picture
  datatype Shot = Shot(start: State, ops: seq<Timed>, drawn: State)

  function FilmStart(shots: seq<Shot>, last: State): State {
    if shots == [] then last else shots[0].start
  }

  // A run of any number of frames, one leading to the next
  ghost predicate Film(tm: Timing, shots: seq<Shot>, last: State)
    requires tm.Valid()
  {
    var n := |shots| - 1;
    shots != [] ==>
      && WholeFrame(tm, shots[n].start, shots[n].ops, shots[n].drawn, last)
      && Film(tm, shots[..n], shots[n].start)
  }

  // A film goes on with one more frame
  lemma FilmAppend(tm: Timing, shots: seq<Shot>, shot: Shot, last: State)
    requires tm.Valid() && Film(tm, shots, shot.start)
    requires WholeFrame(tm, shot.start, shot.ops, shot.drawn, last)
    ensures Film(tm, shots + [shot], last) && FilmStart(shots + [shot], last) == FilmStart(shots, shot.start)
  {
    assert (shots + [shot])[..|shots|] == shots;
  }

  // The operations of every frame
  ghost predicate ShotsValid(shots: seq<Shot>) {
    forall i :: 0 <= i < |shots| ==> OpsValid(shots[i].ops) && shots[i].drawn.Valid()
  }

  // An eager display knows no more than the inputs it starts with and what happens in each
  // frame: this is what it has then
  function EagerInputs(first: Inputs, shots: seq<Shot>): (r: Inputs)
    requires first.video.Valid() && forall i :: 0 <= i < |shots| ==> OpsValid(shots[i].ops)
    ensures r.video.Valid()
  {
    if shots == [] then first
    else AfterFrame(EagerInputs(first, shots[..|shots| - 1]), shots[|shots| - 1].ops)
  }

  // Every picture of the film is the one that an eager display shows, which starts with the
  // inputs `first` and samples every cell as the beam passes it
  ghost predicate EagerFilm(tm: Timing, first: Inputs, shots: seq<Shot>)
    requires tm.Valid() && first.video.Valid()
  {
    && ShotsValid(shots)
    && forall n {:trigger shots[n]} :: 0 <= n < |shots| ==>
         ShowsEager(tm, EagerInputs(first, shots[..n]).video, shots[n].ops, shots[n].drawn)
  }

  lemma OneShotMore(tm: Timing, first: Inputs, shots: seq<Shot>)
    requires tm.Valid() && first.video.Valid() && shots != []
    requires var n := |shots| - 1;
             && EagerFilm(tm, first, shots[..n]) && OpsValid(shots[n].ops) && shots[n].drawn.Valid()
             && ShowsEager(tm, EagerInputs(first, shots[..n]).video, shots[n].ops, shots[n].drawn)
    ensures EagerFilm(tm, first, shots)
  {
    var front := shots[..|shots| - 1];
    forall k | 0 <= k < |shots|
      ensures OpsValid(shots[k].ops) && shots[k].drawn.Valid()
      ensures ShowsEager(tm, EagerInputs(first, shots[..k]).video, shots[k].ops, shots[k].drawn)
    {
      if k < |front| { assert front[k] == shots[k] && front[..k] == shots[..k]; }
    }
  }

  // Over a whole run every frame shows the eager picture
  lemma {:induction false} FilmIsEager(tm: Timing, shots: seq<Shot>, last: State)
    requires tm.Valid() && FrameStart(FilmStart(shots, last)) && Film(tm, shots, last)
    ensures FrameStart(last)
    ensures var first := InputsOf(FilmStart(shots, last));
            EagerFilm(tm, first, shots) && InputsOf(last) == EagerInputs(first, shots)
  {
    if shots != [] {
      var n, first := |shots| - 1, InputsOf(FilmStart(shots, last));
      assert FilmStart(shots[..n], shots[n].start) == FilmStart(shots, last);
      FilmIsEager(tm, shots[..n], shots[n].start);
      WholeFrameIsEager(tm, shots[n].start, shots[n].ops, shots[n].drawn, last);
      OneShotMore(tm, first, shots);
    }
  }

  // The flash phase in closed form: off for sixteen frames and on for the next sixteen
  lemma {:induction false} FlashPhase(first: Inputs, shots: seq<Shot>)
    requires first.video.Valid() && forall i :: 0 <= i < |shots| ==> OpsValid(shots[i].ops)
    requires first.frames == 0 && !first.video.flash
    ensures var r := EagerInputs(first, shots);
            r.frames == |shots| % 32 && r.video.flash == (|shots| / 16 % 2 == 1)
  {
    if shots != [] {
      FlashPhase(first, shots[..|shots| - 1]);
      PhaseTurns(|shots| - 1);
    }
  }

  lemma PhaseTurns(n: nat)
    ensures Counted(n % 32) == (n + 1) % 32
    ensures Turned(n % 32, n / 16 % 2 == 1) == ((n + 1) / 16 % 2 == 1)
  {
    var q, r := n / 32, n % 32;
    PhaseAt(q, r);
    if r == 31 { PhaseAt(q + 1, 0); } else { PhaseAt(q, r + 1); }
  }

  lemma PhaseAt(q: nat, r: nat)
    requires r < 32
    ensures (32 * q + r) % 32 == r && ((32 * q + r) / 16 % 2 == 1) == (r >= 16)
  {
    var half := if r < 16 then 2 * q else 2 * q + 1;
    assert 0 <= 32 * q + r - 16 * half < 16;
  }
}
