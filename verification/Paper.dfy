/** display_dirty.c and display_render.c: the paper area of the display, with the hooks that
    memory, the ULA+ ports and the machine's screen switch call. */
module Paper {
  import opened Bits
  import opened Video
  import opened Canvas
  import opened Beam
  import opened Lazy

  // ---------------------------------------------------------------- flushing, cell by cell

  // A draw looks at nothing but the cell it draws
  lemma PutLocal(c: CanvasState, d: CanvasState, x: nat, y: nat, word: nat, colours: nat, cell: Cell)
    requires c.Valid() && d.Valid() && OnScreen(x, y) && c.SameCell(d, x, y)
    ensures Put(c, x, y, word, colours, cell).SameCell(Put(d, x, y, word, colours, cell), x, y)
  {
    SetBitBits(c.dirty[y], x, SCREEN_WIDTH_COLS);
    SetBitBits(d.dirty[y], x, SCREEN_WIDTH_COLS);
  }

  lemma DrawPaperValid(v: Video, c: CanvasState, x: nat, y: nat)
    requires v.Valid() && c.Valid() && c.Recorded() && IsPaper(x, y)
    ensures DrawPaper(v, c, x, y).Valid() && DrawPaper(v, c, x, y).Recorded()
  {
    RecordOfFreshDraw(v, x, y);
    PutShows(c, x + BORDER_WIDTH_COLS, y + BORDER_HEIGHT, FreshWord(v, x, y), FreshColours(v, x, y), Fresh(v, x, y));
  }

  // Two flushes one after the other, the second starting where the first ended, are one,
  // as long as the second does not reach the cells that the first marked
  lemma FlushThenFlush(s: State, m: State, d: State, lo: nat, mid: nat, hi: nat, a: Cells, b: Cells)
    requires s.Valid() && lo <= mid <= hi
    requires Flushed(s, m, lo, mid, a) && Flushed(m, d, mid, hi, b)
    requires forall x, y :: IsPaper(x, y) && a(x, y) ==> !(mid <= Pos(x, y) < hi)
    ensures Flushed(s, d, lo, hi, (x, y) => a(x, y) || b(x, y))
  {
    forall x, y | IsPaper(x, y)
      ensures d.Maybe(x, y) == (a(x, y) || b(x, y) || (s.Maybe(x, y) && !(lo <= Pos(x, y) < hi)))
    {
      var _ := m.Maybe(x, y);
    }
    forall x, y | OnScreen(x, y)
      ensures if Flushes(s, lo, hi, x - BORDER_WIDTH_COLS, y - BORDER_HEIGHT)
              then d.canvas.SameCell(DrawPaper(s.video, s.canvas, x - BORDER_WIDTH_COLS, y - BORDER_HEIGHT), x, y)
              else d.canvas.SameCell(s.canvas, x, y)
    {
      FlushThenFlushCell(s, m, d, lo, mid, hi, a, b, x, y);
    }
  }

  lemma FlushThenFlushCell(s: State, m: State, d: State, lo: nat, mid: nat, hi: nat, a: Cells, b: Cells, x: nat, y: nat)
    requires s.Valid() && lo <= mid <= hi && OnScreen(x, y)
    requires Flushed(s, m, lo, mid, a) && Flushed(m, d, mid, hi, b)
    requires forall x, y :: IsPaper(x, y) && a(x, y) ==> !(mid <= Pos(x, y) < hi)
    ensures var px, py := x - BORDER_WIDTH_COLS, y - BORDER_HEIGHT;
            if Flushes(s, lo, hi, px, py) then d.canvas.SameCell(DrawPaper(s.video, s.canvas, px, py), x, y)
            else d.canvas.SameCell(s.canvas, x, y)
  {
    var px, py := x - BORDER_WIDTH_COLS, y - BORDER_HEIGHT;
    var _, _ := m.canvas.SameCell(s.canvas, x, y), d.canvas.SameCell(m.canvas, x, y);
    if IsPaper(px, py) {
      var _ := m.Maybe(px, py);
      if mid <= Pos(px, py) < hi && s.Maybe(px, py) {
        PutLocal(m.canvas, s.canvas, x, y, FreshWord(s.video, px, py), FreshColours(s.video, px, py),
                 Fresh(s.video, px, py));
      }
    }
  }

  lemma FlushTwice(s: State, m: State, d: State, lo: nat, mid: nat, hi: nat)
    requires s.Valid() && lo <= mid <= hi
    requires Flushed(s, m, lo, mid, NO_CELLS) && Flushed(m, d, mid, hi, NO_CELLS)
    ensures Flushed(s, d, lo, hi, NO_CELLS)
  {
    FlushThenFlush(s, m, d, lo, mid, hi, NO_CELLS, NO_CELLS);
  }

  function Single(x: int, y: int): Cells { (i, j) => i == x && j == y }

  function Column(x: int, y: int, n: nat): Cells { (i, j) => i == x && y <= j < y + n }

  // Only the paper cells of a set matter
  lemma CaughtMarks(s: State, d: State, p: Point, hit: bool, a: Cells, b: Cells)
    requires s.Valid() && 0 <= p.x <= WIDTH_COLS && 0 <= p.y < HEIGHT && Caught(s, d, p, hit, a)
    requires forall x, y :: IsPaper(x, y) ==> a(x, y) == b(x, y)
    ensures Caught(s, d, p, hit, b)
  {
  }

  lemma CaughtTwice(s: State, m: State, d: State, p: Point, hit: bool, again: bool, a: Cells, b: Cells, c: Cells)
    requires s.Valid() && 0 <= p.x <= WIDTH_COLS && 0 <= p.y < HEIGHT
    requires Caught(s, m, p, hit, a) && Caught(m, d, p, again, b)
    requires hit ==> !again && s.Critical() <= Pos(p.x, p.y)
    requires again ==> m.Critical() <= Pos(p.x, p.y)
    requires again ==> forall x, y :: IsPaper(x, y) && a(x, y) ==> !(m.Critical() <= Pos(x, y) < Pos(p.x, p.y))
    requires forall x, y :: IsPaper(x, y) ==> c(x, y) == (a(x, y) || b(x, y))
    ensures Caught(s, d, p, hit || again, c)
  {
    FlushThenFlush(s, m, d, s.Critical(), m.Critical(), d.Critical(), a, b);
    CaughtMarks(s, d, p, hit || again, (x, y) => a(x, y) || b(x, y), c);
  }

  function Touching(offset: nat): Cells { (x, y) => Touches(offset, x, y) }

  // Does a write to offset hit a cell that the beam has passed but that is not drawn yet?
  ghost predicate Reaches(s: State, p: Point, offset: nat) {
    exists x: nat, y: nat :: IsPaper(x, y) && Touches(offset, x, y) && s.Critical() <= Pos(x, y) < 32 * p.y + p.x
  }

  ghost predicate ColumnReaches(s: State, p: Point, x: nat, y: nat, n: nat) {
    exists j: nat :: y <= j < y + n && s.Critical() <= Pos(x, j) < 32 * p.y + p.x
  }

  lemma ReachesOne(s: State, p: Point, offset: nat, x: nat, y: nat)
    requires offset < PIXEL_BYTES && x == PixelCol(offset) && y == PixelLine(offset)
    ensures Reaches(s, p, offset) <==> s.Critical() <= Pos(x, y) < 32 * p.y + p.x
  {
    assert IsPaper(x, y) && Touches(offset, x, y);
  }

  lemma ReachesColumn(s: State, p: Point, offset: nat, x: nat, y: nat)
    requires PIXEL_BYTES <= offset < FILE_SIZE
    requires x == (offset - PIXEL_BYTES) % 32 && y == (offset - PIXEL_BYTES) / 32 * 8
    ensures Reaches(s, p, offset) <==> ColumnReaches(s, p, x, y, 8)
    ensures forall i, j :: IsPaper(i, j) ==> Column(x, y, 8)(i, j) == Touching(offset)(i, j)
  {
    if ColumnReaches(s, p, x, y, 8) {
      var j: nat :| y <= j < y + 8 && s.Critical() <= Pos(x, j) < 32 * p.y + p.x;
      assert IsPaper(x, j) && Touches(offset, x, j);
    }
    if Reaches(s, p, offset) {
      var i: nat, j: nat :| IsPaper(i, j) && Touches(offset, i, j) && s.Critical() <= Pos(i, j) < 32 * p.y + p.x;
      assert i == x && y <= j < y + 8;
      assert Pos(x, j) == Pos(i, j);
    }
  }

  // The chunks of a column, marked one by one: the display catches up at most once
  lemma ColumnStep(s: State, m: State, d: State, p: Point, x: nat, y: nat, i: nat)
    requires s.Valid() && 0 <= p.x <= WIDTH_COLS && 0 <= p.y < HEIGHT && IsPaper(x, y + i)
    requires Caught(s, m, p, ColumnReaches(s, p, x, y, i), Column(x, y, i))
    requires Caught(m, d, p, m.Critical() <= Pos(x, y + i) < Pos(p.x, p.y), Single(x, y + i))
    ensures Caught(s, d, p, ColumnReaches(s, p, x, y, i + 1), Column(x, y, i + 1))
  {
    var hit := ColumnReaches(s, p, x, y, i);
    var again := m.Critical() <= Pos(x, y + i) < Pos(p.x, p.y);
    ColumnReachesStep(s, p, x, y, i);
    forall a, b | IsPaper(a, b) && Column(x, y, i)(a, b) && !hit
      ensures !(s.Critical() <= Pos(a, b) < Pos(p.x, p.y))
    {
      assert Pos(a, b) == Pos(x, b);
    }
    CaughtTwice(s, m, d, p, hit, again, Column(x, y, i), Single(x, y + i), Column(x, y, i + 1));
  }

  lemma ColumnReachesStep(s: State, p: Point, x: nat, y: nat, i: nat)
    ensures ColumnReaches(s, p, x, y, i + 1)
       <==> (ColumnReaches(s, p, x, y, i) || s.Critical() <= Pos(x, y + i) < 32 * p.y + p.x)
    ensures ColumnReaches(s, p, x, y, i) ==> s.Critical() <= 32 * p.y + p.x
  {
    if s.Critical() <= Pos(x, y + i) < 32 * p.y + p.x { assert y <= y + i < y + i + 1; }
  }

  function From(lo: nat): Cells { (x: int, y: int) => 32 * y + x >= lo }

  // display_palette_changed catches up with a beam that is ahead, and marks the rest
  ghost predicate PaletteCaught(s: State, d: State, p: Point)
    requires s.Valid() && 0 <= p.x <= WIDTH_COLS && 0 <= p.y < HEIGHT
  {
    Caught(s, d.(palettePending := s.palettePending), p, p.y > s.cy || (p.y == s.cy && p.x > s.cx), From(Pos(p.x, p.y)))
  }

  lemma PaletteTwice(s: State, m: State, d: State, p: Point, hit: bool)
    requires s.Valid() && 0 <= p.x <= WIDTH_COLS && 0 <= p.y < HEIGHT
    requires Caught(s, m, p, hit, NO_CELLS) && Caught(m, d, p, false, From(Pos(p.x, p.y)))
    requires hit ==> s.Critical() <= Pos(p.x, p.y)
    ensures Caught(s, d, p, hit, From(Pos(p.x, p.y)))
  {
    CaughtTwice(s, m, d, p, hit, false, NO_CELLS, From(Pos(p.x, p.y)), From(Pos(p.x, p.y)));
  }

  // The masks of display_palette_changed
  lemma RowMarks(w: nat, all: nat, x: nat)
    requires Fits(w, 32) && AllSet(all, SCREEN_WIDTH_COLS) && x <= 32
    ensures Fits(Trunc(all, 32), 32) && forall c: nat :: Bit(Trunc(all, 32), c) == (c < 32)
    ensures var row := Or(w, Trunc(Shl(Trunc(all, 32), x), 32));
            Fits(row, 32) && forall c: nat :: Bit(row, c) == (Bit(w, c) || x <= c < 32)
  {
    TruncBit(all, 32, 0);
    forall c: nat ensures Bit(Trunc(all, 32), c) == (c < 32) { TruncBit(all, 32, c); }
    var add := Trunc(Shl(Trunc(all, 32), x), 32);
    TruncBit(Shl(Trunc(all, 32), x), 32, 0);
    FitsOr(w, add, 32);
    forall c: nat ensures Bit(Or(w, add), c) == (Bit(w, c) || x <= c < 32) {
      OrBit(w, add, c);
      TruncBit(Shl(Trunc(all, 32), x), 32, c);
      ShlBit(Trunc(all, 32), x, c);
    }
  }

  lemma MarkedFrom(s: State, d: State, p: Point, all: nat, x: nat, y: nat)
    requires s.Valid() && 0 <= p.x <= WIDTH_COLS && 0 <= p.y < HEIGHT
    requires AllSet(all, SCREEN_WIDTH_COLS) && x <= 32 && y < HEIGHT
    requires |d.maybe| == HEIGHT && d == s.(maybe := d.maybe)
    requires forall i :: 0 <= i < y ==> d.maybe[i] == s.maybe[i]
    requires d.maybe[y] == if x < 32 then Or(s.maybe[y], Trunc(Shl(Trunc(all, 32), x), 32)) else s.maybe[y]
    requires forall i :: y < i < HEIGHT ==> d.maybe[i] == Trunc(all, 32)
    ensures d.Valid() && Caught(s, d, p, false, From(Pos(x, y)))
  {
    RowMarks(s.maybe[y], all, x);
    FlushNothing(s, s.Critical(), s.Critical());
    forall i, j | IsPaper(i, j) ensures d.Maybe(i, j) == (From(Pos(x, y))(i, j) || s.Maybe(i, j)) {
      if j == y { var _ := Bit(d.maybe[y], i); } else if j > y { var _ := Bit(Trunc(all, 32), i); }
    }
  }

  // The whole of a write, put together from the hook and the store
  lemma WriteNext(s: State, m: State, d: State, p: Point, target: nat, offset: nat, b: byte)
    requires s.Valid() && 0 <= p.x <= WIDTH_COLS && 0 <= p.y < HEIGHT && target < RAM_PAGES && offset < RAM_PAGE
    requires if Noticed(s.video, Write(target, offset, b))
             then Caught(s, m, p, Reaches(s, p, offset), Touching(offset)) else m == s
    requires d.Valid() && d == m.(video := Apply(s.video, Write(target, offset, b)))
    ensures Next(s, p, Write(target, offset, b), d)
  {
    var op := Write(target, offset, b);
    var f := d.(video := s.video);
    FlushNothing(s, s.Critical(), s.Critical());
    if Noticed(s.video, op) {
      assert f == m;
      assert Marks(s, op, Pos(p.x, p.y)) == Touching(offset) by {
        CaughtMarks(s, m, p, Reaches(s, p, offset), Touching(offset), Marks(s, op, Pos(p.x, p.y)));
      }
    }
  }

  lemma PaletteNext(s: State, m: State, d: State, p: Point, op: Op)
    requires s.Valid() && 0 <= p.x <= WIDTH_COLS && 0 <= p.y < HEIGHT && OpValid(op) && (op.SetPalette? || op.SetMode?)
    requires if PaletteChanges(s.video, op) then m.palettePending && PaletteCaught(s, m, p) else m == s
    requires d.Valid() && d == m.(video := Apply(s.video, op))
    ensures Next(s, p, op, d)
  {
    var f := d.(video := s.video, palettePending := s.palettePending);
    FlushNothing(s, s.Critical(), s.Critical());
    if PaletteChanges(s.video, op) {
      assert f == m.(palettePending := s.palettePending);
      var hit := p.y > s.cy || (p.y == s.cy && p.x > s.cx);
      CaughtMarks(s, f, p, hit, From(Pos(p.x, p.y)), Marks(s, op, Pos(p.x, p.y)));
    }
  }

  lemma SwitchNext(s: State, m: State, d: State, p: Point, screen: nat)
    requires s.Valid() && 0 <= p.x <= WIDTH_COLS && 0 <= p.y < HEIGHT && screen < RAM_PAGES
    requires if screen != s.video.page then Caught(s, m, p, 0 < Pos(p.x, p.y), ALL_CELLS) else m == s
    requires d.Valid() && d == m.(video := Apply(s.video, SwitchScreen(screen)))
    ensures Next(s, p, SwitchScreen(screen), d)
  {
    FlushNothing(s, s.Critical(), s.Critical());
    assert screen != s.video.page ==> d.(video := s.video, palettePending := s.palettePending) == m;
  }

  lemma FrameBegunFrom(s: State, m: State, d: State)
    requires s.Valid() && Flushed(s, m, s.Critical(), PIXEL_BYTES, NO_CELLS)
    requires d.Valid() && d == m.(cx := 0, cy := 0, palettePending := false, maybe := d.maybe)
    requires if s.palettePending then forall x: nat, y :: IsPaper(x, y) ==> Bit(d.maybe[y], x) else d.maybe == m.maybe
    ensures FrameBegun(s, d)
  {
    forall x, y | IsPaper(x, y)
      ensures d.Maybe(x, y) == (s.palettePending || (s.Maybe(x, y) && !(s.Critical() <= Pos(x, y))))
    {
      var _, _ := m.Maybe(x, y), Bit(d.maybe[y], x);
    }
  }

  // The cells with a flashing attribute stored before an offset
  function Flashing(v: Video, offset: nat): Cells
    requires v.Valid()
  {
    (x, y) => IsPaper(x, y) && AttrStart(y) + x < offset && v.Attr(x, y) >= 128
  }

  lemma FlashingStep(s: State, m: State, d: State, offset: nat)
    requires s.Valid() && PIXEL_BYTES <= offset < FILE_SIZE && s.video.ram[s.video.page * RAM_PAGE + offset] >= 128
    requires Caught(s, m, Point(0, 0), false, Flashing(s.video, offset))
    requires Caught(m, d, Point(0, 0), Reaches(m, Point(0, 0), offset), Touching(offset))
    ensures Caught(s, d, Point(0, 0), false, Flashing(s.video, offset + 1))
  {
    forall x, y | IsPaper(x, y)
      ensures Flashing(s.video, offset + 1)(x, y) == (Flashing(s.video, offset)(x, y) || Touching(offset)(x, y))
    {
      AttrAddress(offset, x, y);
    }
    CaughtTwice(s, m, d, Point(0, 0), false, false, Flashing(s.video, offset), Touching(offset),
                Flashing(s.video, offset + 1));
  }

  lemma FlashingSkip(s: State, m: State, offset: nat)
    requires s.Valid() && PIXEL_BYTES <= offset < FILE_SIZE && s.video.ram[s.video.page * RAM_PAGE + offset] < 128
    requires Caught(s, m, Point(0, 0), false, Flashing(s.video, offset))
    ensures Caught(s, m, Point(0, 0), false, Flashing(s.video, offset + 1))
  {
    CaughtMarks(s, m, Point(0, 0), false, Flashing(s.video, offset), Flashing(s.video, offset + 1));
  }

  // Nothing changed but the flash phase and the marks on the flashing cells
  ghost predicate FlashTurned(s: State, d: State)
    requires s.Valid()
  {
    && |d.maybe| == HEIGHT && d == s.(video := s.video.(flash := d.video.flash), maybe := d.maybe)
    && forall x, y {:trigger d.Maybe(x, y)} :: IsPaper(x, y) ==>
         d.Maybe(x, y) == (s.Maybe(x, y) || (!s.video.ulaplus && s.video.Attr(x, y) >= 128))
  }

  lemma FlashTurnedFrom(m: State, d: State)
    requires m.Valid()
    requires Caught(m, d, Point(0, 0), false, if m.video.ulaplus then NO_CELLS else Flashing(m.video, FILE_SIZE))
    ensures d == m.(maybe := d.maybe)
    ensures forall x, y :: IsPaper(x, y) ==>
              d.Maybe(x, y) == (m.Maybe(x, y) || (!m.video.ulaplus && m.video.Attr(x, y) >= 128))
  {
    forall x, y | OnScreen(x, y) ensures m.canvas.SameCell(d.canvas, x, y) {
      var _ := d.canvas.SameCell(m.canvas, x, y);
    }
    SameCells(m.canvas, d.canvas);
  }

  lemma FlashCountedFrom(s: State, m: State, d: State)
    requires s.Valid() && m.Valid() && m == s.(frames := s.frames + 1) && d.Valid()
    requires if m.frames == 16 then FlashTurned(m, d) && d.video.flash
             else if m.frames == 32 then FlashTurned(m, d.(frames := 32)) && !d.video.flash && d.frames == 0
             else d == m
    ensures FlashCounted(s, d)
  {
    var t := if m.frames == 32 then d.(frames := 32) else d;
    forall x, y | IsPaper(x, y)
      ensures d.Maybe(x, y) == (s.Maybe(x, y)
                || ((s.frames + 1 == 16 || s.frames + 1 == 32) && !s.video.ulaplus && s.video.Attr(x, y) >= 128))
    {
      var _, _ := t.Maybe(x, y), m.Maybe(x, y);
    }
  }

  lemma AllMarkedAfter(s: State, m: State, d: State, p: Point, hit: bool)
    requires s.Valid() && 0 <= p.x <= WIDTH_COLS && 0 <= p.y < HEIGHT
    requires Caught(s, m, p, hit, NO_CELLS)
    requires d.Valid() && d == m.(maybe := d.maybe)
    requires forall x: nat, y :: IsPaper(x, y) ==> Bit(d.maybe[y], x)
    ensures Caught(s, d, p, hit, ALL_CELLS)
  {
    forall x, y | IsPaper(x, y) ensures d.Maybe(x, y) { assert Bit(d.maybe[y], x); }
  }

  // Moving the critical position draws nothing
  lemma FlushedElsewhere(s: State, d: State, e: State, lo: nat, hi: nat, a: Cells)
    requires s.Valid() && Flushed(s, d, lo, hi, a)
    requires e.Valid() && e == d.(cx := e.cx, cy := e.cy)
    ensures Flushed(s, e, lo, hi, a)
  {
    forall x, y | IsPaper(x, y) ensures e.Maybe(x, y) == d.Maybe(x, y) {}
  }

  lemma FlushNothing(s: State, lo: nat, hi: nat)
    requires s.Valid() && hi <= lo
    ensures Flushed(s, s, lo, hi, NO_CELLS)
  {
    forall x, y | OnScreen(x, y) ensures s.canvas.SameCell(s.canvas, x, y) {}
  }

  // ---------------------------------------------------------------- one line of the region

  // The mask that copy_critical_region_line builds from display_all_dirty with three shifts
  function LineMask(all: nat, x: nat, end: nat): nat
    requires x < end <= 32
  {
    Shr(Trunc(Shl(Shr(Trunc(all, 32), x), x + (32 - end)), 32), 32 - end)
  }

  // It holds exactly the columns from x to end
  lemma LineMaskBits(all: nat, x: nat, end: nat, i: nat)
    requires x < end <= 32 && AllSet(all, SCREEN_WIDTH_COLS)
    ensures Bit(LineMask(all, x, end), i) == (x <= i < end)
  {
    var up := Shl(Shr(Trunc(all, 32), x), x + (32 - end));
    ShrBit(Trunc(up, 32), 32 - end, i);
    TruncBit(up, 32, i + 32 - end);
    ShlBit(Shr(Trunc(all, 32), x), x + (32 - end), i + 32 - end);
    if i >= x {
      ShrBit(Trunc(all, 32), x, i - x);
      TruncBit(all, 32, i);
    }
  }

  // rest holds the bits of w in the columns x <= c < end, moved down by x
  ghost predicate Rest(rest: nat, w: nat, x: nat, end: nat) {
    forall i: nat :: Bit(rest, i) == (x + i < end && Bit(w, x + i))
  }

  lemma RestHalf(rest: nat, w: nat, x: nat, end: nat)
    requires Rest(rest, w, x, end)
    ensures Rest(rest / 2, w, x + 1, end)
  {
    forall i: nat ensures Bit(rest / 2, i) == (x + 1 + i < end && Bit(w, x + 1 + i)) {
      assert Bit(rest, i + 1) == Bit(rest / 2, i);
    }
  }

  lemma RestNonzero(rest: nat, w: nat, x: nat, end: nat)
    requires Rest(rest, w, x, end) && Fits(rest, 32)
    ensures rest != 0 ==> x < end
    ensures rest == 0 ==> forall c: nat :: x <= c < end ==> !Bit(w, c)
  {
    if rest != 0 {
      var i := NonzeroHasBit(rest, 32);
    } else {
      forall c: nat | x <= c < end ensures !Bit(w, c) {
        ZeroBits(c - x);
        assert Bit(rest, c - x) == Bit(w, x + (c - x));
      }
    }
  }

  lemma RestStart(w: nat, all: nat, x: nat, end: nat)
    requires x < end <= 32 && Fits(w, 32) && AllSet(all, SCREEN_WIDTH_COLS)
    ensures var mask := LineMask(all, x, end);
            && Rest(Shr(And(w, mask), x), w, x, end) && Fits(Shr(And(w, mask), x), 32)
            && Fits(AndNot(w, mask), 32)
            && forall c: nat :: Bit(AndNot(w, mask), c) == (Bit(w, c) && !(x <= c < end))
  {
    var mask := LineMask(all, x, end);
    FitsAnd(w, mask, 32);
    FitsShr(And(w, mask), x, 32);
    FitsAndNot(w, mask, 32);
    forall c: nat ensures Bit(AndNot(w, mask), c) == (Bit(w, c) && !(x <= c < end)) {
      AndNotBit(w, mask, c);
      LineMaskBits(all, x, end, c);
    }
    forall i: nat ensures Bit(Shr(And(w, mask), x), i) == (x + i < end && Bit(w, x + i)) {
      ShrBit(And(w, mask), x, i);
      AndBit(w, mask, i + x);
      LineMaskBits(all, x, end, i + x);
    }
  }

  // One column further along the line
  lemma LineStep(s: State, c: CanvasState, x0: nat, x: nat, y: nat)
    requires s.Valid() && c.Valid() && c.Recorded() && x0 <= x && IsPaper(x, y) && s.Maybe(x, y)
    requires CanvasFlushed(s, c, Pos(x0, y), Pos(x, y))
    ensures var d := DrawPaper(s.video, c, x, y);
            d.Valid() && d.Recorded() && CanvasFlushed(s, d, Pos(x0, y), Pos(x + 1, y))
  {
    DrawPaperValid(s.video, c, x, y);
    var d := DrawPaper(s.video, c, x, y);
    forall i, j | OnScreen(i, j)
      ensures if Flushes(s, Pos(x0, y), Pos(x + 1, y), i - BORDER_WIDTH_COLS, j - BORDER_HEIGHT)
              then d.SameCell(DrawPaper(s.video, s.canvas, i - BORDER_WIDTH_COLS, j - BORDER_HEIGHT), i, j)
              else d.SameCell(s.canvas, i, j)
    {
      LineStepCell(s, c, x0, x, y, i, j);
    }
  }

  lemma LineStepCell(s: State, c: CanvasState, x0: nat, x: nat, y: nat, i: nat, j: nat)
    requires s.Valid() && c.Valid() && c.Recorded() && x0 <= x && IsPaper(x, y) && s.Maybe(x, y) && OnScreen(i, j)
    requires CanvasFlushed(s, c, Pos(x0, y), Pos(x, y)) && DrawPaper(s.video, c, x, y).Valid()
    ensures var d := DrawPaper(s.video, c, x, y);
            if Flushes(s, Pos(x0, y), Pos(x + 1, y), i - BORDER_WIDTH_COLS, j - BORDER_HEIGHT)
            then d.SameCell(DrawPaper(s.video, s.canvas, i - BORDER_WIDTH_COLS, j - BORDER_HEIGHT), i, j)
            else d.SameCell(s.canvas, i, j)
  {
    var X, Y := x + BORDER_WIDTH_COLS, y + BORDER_HEIGHT;
    var d := DrawPaper(s.video, c, x, y);
    var word, cols, cell := FreshWord(s.video, x, y), FreshColours(s.video, x, y), Fresh(s.video, x, y);
    var _ := c.SameCell(s.canvas, i, j);
    if i == X && j == Y {
      PutLocal(c, s.canvas, X, Y, word, cols, cell);
    } else {
      RecordOfFreshDraw(s.video, x, y);
      PutShows(c, X, Y, word, cols, cell);
      assert d.SameCell(c, i, j);
    }
  }

  // A clean column is passed over
  lemma LineSkip(s: State, c: CanvasState, x0: nat, x: nat, y: nat)
    requires s.Valid() && c.Valid() && x0 <= x && IsPaper(x, y) && !s.Maybe(x, y)
    requires CanvasFlushed(s, c, Pos(x0, y), Pos(x, y))
    ensures CanvasFlushed(s, c, Pos(x0, y), Pos(x + 1, y))
  {
    LineEnd(s, c, x0, x, x + 1, y);
  }

  lemma LineEnd(s: State, c: CanvasState, x0: nat, x: nat, end: nat, y: nat)
    requires s.Valid() && c.Valid() && x0 <= x && x0 <= end <= 32 && y < HEIGHT
    requires CanvasFlushed(s, c, Pos(x0, y), Pos(x, y)) && x <= end
    requires forall i: nat :: x <= i < end ==> !Bit(s.maybe[y], i)
    ensures CanvasFlushed(s, c, Pos(x0, y), Pos(end, y))
  {
    forall i, j | OnScreen(i, j)
      ensures Flushes(s, Pos(x0, y), Pos(x, y), i - BORDER_WIDTH_COLS, j - BORDER_HEIGHT)
         <==> Flushes(s, Pos(x0, y), Pos(end, y), i - BORDER_WIDTH_COLS, j - BORDER_HEIGHT)
    {
      if j == y + BORDER_HEIGHT && i >= BORDER_WIDTH_COLS { var _ := Bit(s.maybe[y], i - BORDER_WIDTH_COLS); }
    }
    forall i, j | OnScreen(i, j)
      ensures if Flushes(s, Pos(x0, y), Pos(end, y), i - BORDER_WIDTH_COLS, j - BORDER_HEIGHT)
              then c.SameCell(DrawPaper(s.video, s.canvas, i - BORDER_WIDTH_COLS, j - BORDER_HEIGHT), i, j)
              else c.SameCell(s.canvas, i, j)
    {
      var _ := c.SameCell(s.canvas, i, j);
    }
  }

  // ---------------------------------------------------------------- the display itself

  // What memory_map_write says about a 2K chunk of the address space
  datatype MapEntry = MapEntry(writable: bool, isRam: bool, pageNum: nat, offset: nat)

  const NO_TSTATES: nat := 0xffff_ffff

  class Display {
    const buffers: Buffers
    const timing: Timing
    const ram: array<byte>           // RAM, page after page
    const palette: array<byte>       // the ULA+ palette
    const maybe: array<nat>          // display_maybe_dirty

    var tstates: nat
    var page: nat                    // memory_current_screen
    var ulaplus: bool                // the ULA+ mode
    var flash: bool                  // display_flash_reversed
    var frames: nat                  // display_frame_count
    var palettePending: bool         // display_palette_changed_this_frame
    var cx: nat                      // critical_region_x
    var cy: nat                      // critical_region_y
    var cachedTstates: nat
    var cachedX: nat
    var cachedY: nat

    ghost const Repr: set<object> := {this, ram, palette, maybe} + buffers.Repr

    // display_init, for a machine with the given timing
    constructor (timing: Timing)
      requires timing.Valid()
      ensures AllMarked() && fresh(Repr) && this.timing == timing
      ensures tstates == 0 && page == 5 && !ulaplus && !flash && frames == 0
    {
      this.timing := timing;
      ram := new byte[RAM_BYTES];
      palette := new byte[PALETTE_SIZE];
      maybe := new nat[HEIGHT];
      buffers := new Buffers();
      tstates, page, ulaplus, flash, frames := 0, 5, false, false, 0;
      palettePending, cx, cy := false, 0, 0;
      cachedTstates, cachedX, cachedY := NO_TSTATES, 0, 0;
      new;
      RefreshMainScreen();
    }

    // Nothing drawn yet and every cell to be drawn
    ghost predicate AllMarked()
      reads this, ram, palette, maybe, buffers.Repr
    {
      && Distinct() && buffers.Valid() && Abs().video.Valid() && tstates < NO_TSTATES
      && cachedTstates == NO_TSTATES && cx == 0 && cy == 0 && !palettePending && maybe.Length == HEIGHT
      && (forall y :: 0 <= y < HEIGHT ==> Fits(maybe[y], WIDTH_COLS))
      && (forall x: nat, y :: IsPaper(x, y) ==> Bit(maybe[y], x))
    }

    lemma AllMarkedStarts()
      requires AllMarked()
      ensures Valid() && FrameStart(Abs())
    {
      assert Abs().canvas.Valid();
      forall x, y | IsPaper(x, y) ensures Abs().Maybe(x, y) {
        assert Bit(maybe[y], x);
      }
    }

    // display_refresh_main_screen
    method RefreshMainScreen()
      requires Distinct() && buffers.Distinct() && maybe.Length == HEIGHT
      modifies maybe
      ensures forall y :: 0 <= y < HEIGHT ==> maybe[y] == Trunc(buffers.allDirty, 32)
      ensures forall y :: 0 <= y < HEIGHT ==> Fits(maybe[y], WIDTH_COLS)
      ensures forall x: nat, y :: IsPaper(x, y) ==> Bit(maybe[y], x)
    {
      var all := Trunc(buffers.allDirty, 32);
      for y := 0 to HEIGHT
        invariant forall j :: 0 <= j < y ==> maybe[j] == all
      {
        maybe[y] := all;
      }
      TruncBit(buffers.allDirty, 32, 0);
      forall x: nat, y | IsPaper(x, y) ensures Bit(maybe[y], x) {
        TruncBit(buffers.allDirty, 32, x);
      }
    }

    ghost function Abs(): State
      reads this, ram, palette, maybe, buffers.Repr
    {
      State(Video(ram[..], page, palette[..], ulaplus, flash), buffers.Abs(), maybe[..], cx, cy, palettePending, frames)
    }

    ghost predicate Distinct() {
      && ram as object != palette && ram as object != maybe && palette as object != maybe
      && ram !in buffers.Repr && palette !in buffers.Repr && maybe !in buffers.Repr && this !in buffers.Repr
      && timing.Valid()
    }

    ghost predicate Valid()
      reads this, ram, palette, maybe, buffers.Repr
    {
      && Distinct() && buffers.Valid() && Abs().Valid()
      && tstates < NO_TSTATES
      && (cachedTstates != NO_TSTATES ==> Point(cachedX, cachedY) == PaperBeam(timing, cachedTstates))
    }

    // Where the beam is now
    ghost function Now(): (p: Point)
      requires timing.Valid()
      reads this
      ensures 0 <= p.x <= WIDTH_COLS && 0 <= p.y < HEIGHT
    {
      PaperBeam(timing, tstates)
    }

    // The processor goes on
    method Elapse(spent: nat)
      requires Valid() && tstates + spent < NO_TSTATES
      modifies this`tstates
      ensures Valid() && Abs() == old(Abs()) && tstates == old(tstates) + spent
    {
      tstates := tstates + spent;
    }

    // The clock goes back by the length of the frame that has ended
    method TakeOff(length: nat)
      requires Valid() && length <= tstates
      modifies this`tstates
      ensures Valid() && Abs() == old(Abs()) && tstates == old(tstates) - length
    {
      tstates := tstates - length;
    }

    // update_cached_beam: the cache always holds what a fresh computation would give
    method UpdateCachedBeam()
      requires Valid()
      modifies this`cachedTstates, this`cachedX, this`cachedY
      ensures Valid() && Abs() == old(Abs())
      ensures cachedTstates == tstates && Point(cachedX, cachedY) == PaperBeam(timing, tstates)
    {
      if tstates != cachedTstates {
        var beam := PaperBeam(timing, tstates);
        cachedTstates := tstates;
        cachedX := beam.x;
        cachedY := beam.y;
      }
    }

    // display_write_if_dirty_ulaplus
    method WriteIfDirtyUlaplus(x: nat, y: nat)
      requires Valid() && ulaplus && IsPaper(x, y)
      modifies buffers.Repr
      ensures buffers.Valid() && buffers.Abs() == DrawPaper(old(Abs()).video, old(Abs()).canvas, x, y)
    {
      RecordOfFreshDraw(Abs().video, x, y);
      var data: byte := ram[page * RAM_PAGE + LineStart(y) + x];
      var attr: byte := ram[page * RAM_PAGE + AttrStart(y) + x];
      var clut := (attr / 64) * 16;
      var ink := ULAPLUS_BASE + palette[(clut + attr % 8) % PALETTE_SIZE];
      var paper := ULAPLUS_BASE + palette[(clut + 8 + attr / 8 % 8) % PALETTE_SIZE];
      var word := ULAPLUS_MARK + attr * 256 + data;
      var cols := ink * 0x10000 + paper;
      buffers.DrawUlaplus(x + BORDER_WIDTH_COLS, y + BORDER_HEIGHT, word, cols, Cell(data, ink, paper));
    }

    // display_write_if_dirty_sinclair
    method WriteIfDirty(x: nat, y: nat)
      requires Valid() && IsPaper(x, y)
      modifies buffers.Repr
      ensures buffers.Valid() && buffers.Abs() == DrawPaper(old(Abs()).video, old(Abs()).canvas, x, y)
    {
      if ulaplus {
        WriteIfDirtyUlaplus(x, y);
        return;
      }
      RecordOfFreshDraw(Abs().video, x, y);
      var data: byte := ram[page * RAM_PAGE + LineStart(y) + x];
      var attr: byte := ram[page * RAM_PAGE + AttrStart(y) + x];
      var word := (if flash then 0x0100_0000 else 0) + attr * 256 + data;
      buffers.DrawStandard(x + BORDER_WIDTH_COLS, y + BORDER_HEIGHT, word,
                           Cell(data, AttrInk(attr, flash), AttrPaper(attr, flash)));
    }

    // Half way along line y: the cells from start to x are drawn, and rest holds the others
    ghost predicate Scanning(s: State, m: seq<nat>, rest: nat, start: nat, x: nat, y: nat, end: nat)
      reads this, ram, palette, maybe, buffers.Repr
    {
      && Valid() && s.Valid() && y < HEIGHT && maybe[..] == m && start <= x <= end <= WIDTH_COLS
      && Abs() == s.(maybe := m, canvas := buffers.Abs())
      && Rest(rest, s.maybe[y], x, end) && Fits(rest, 32)
      && CanvasFlushed(s, buffers.Abs(), Pos(start, y), Pos(x, y))
    }

    lemma SkipCell(s: State, m: seq<nat>, rest: nat, start: nat, x: nat, y: nat, end: nat)
      requires Scanning(s, m, rest, start, x, y, end) && rest != 0 && rest % 2 == 0
      ensures x < end && rest / 2 != 0 && Scanning(s, m, rest / 2, start, x + 1, y, end)
    {
      RestNonzero(rest, s.maybe[y], x, end);
      assert !Bit(rest, 0);
      LineSkip(s, buffers.Abs(), start, x, y);
      RestHalf(rest, s.maybe[y], x, end);
      FitsHalf(rest, 32);
    }

    method DrawCell(ghost s: State, ghost m: seq<nat>, rest: nat, ghost start: nat, x: nat, y: nat, ghost end: nat)
      requires Scanning(s, m, rest, start, x, y, end) && rest % 2 == 1
      modifies buffers.Repr
      ensures x < end && Scanning(s, m, rest / 2, start, x + 1, y, end)
    {
      RestNonzero(rest, s.maybe[y], x, end);
      assert Bit(rest, 0);
      LineStep(s, buffers.Abs(), start, x, y);
      RestHalf(rest, s.maybe[y], x, end);
      FitsHalf(rest, 32);
      WriteIfDirty(x, y);
    }

    // copy_critical_region_line
    method CopyCriticalRegionLine(y: nat, start: nat, end: nat)
      requires Valid() && y < HEIGHT && start <= WIDTH_COLS && end <= WIDTH_COLS
      modifies maybe, buffers.Repr
      ensures Valid() && Flushed(old(Abs()), Abs(), Pos(start, y), Pos(end, y), NO_CELLS)
    {
      ghost var s := Abs();
      FlushNothing(s, Pos(start, y), Pos(start, y));
      if end <= start {
        FlushNothing(s, Pos(start, y), Pos(end, y));
        return;
      }
      RestStart(s.maybe[y], buffers.allDirty, start, end);
      var mask := LineMask(buffers.allDirty, start, end);
      var rest := Shr(And(maybe[y], mask), start);
      maybe[y] := AndNot(maybe[y], mask);
      ghost var m := maybe[..];
      ghost var x := ScanLine(s, m, rest, start, y, end);
      LineDone(s, m, start, x, y, end);
    }

    // The loops of copy_critical_region_line
    method ScanLine(ghost s: State, ghost m: seq<nat>, dirty: nat, start: nat, y: nat, ghost end: nat) returns (x: nat)
      requires Scanning(s, m, dirty, start, start, y, end)
      modifies buffers.Repr
      ensures Scanning(s, m, 0, start, x, y, end)
    {
      var rest := dirty;
      x := start;
      while rest != 0
        invariant Scanning(s, m, rest, start, x, y, end)
        decreases end - x
      {
        ghost var before := x;
        // skip to the first dirty cell
        while rest % 2 == 0
          invariant before <= x && rest != 0 && Scanning(s, m, rest, start, x, y, end)
          decreases end - x
        {
          SkipCell(s, m, rest, start, x, y, end);
          rest := rest / 2;
          x := x + 1;
        }
        // draw up to the end of the run
        while rest % 2 == 1
          invariant before <= x && Scanning(s, m, rest, start, x, y, end)
          invariant rest % 2 == 1 || x > before
          decreases end - x
        {
          DrawCell(s, m, rest, start, x, y, end);
          rest := rest / 2;
          x := x + 1;
        }
      }
    }

    lemma LineDone(s: State, m: seq<nat>, start: nat, x: nat, y: nat, end: nat)
      requires Scanning(s, m, 0, start, x, y, end) && |m| == HEIGHT
      requires forall j :: 0 <= j < HEIGHT && j != y ==> m[j] == s.maybe[j]
      requires forall c: nat :: Bit(m[y], c) == (Bit(s.maybe[y], c) && !(start <= c < end))
      ensures Flushed(s, Abs(), Pos(start, y), Pos(end, y), NO_CELLS)
    {
      RestNonzero(0, s.maybe[y], x, end);
      LineEnd(s, buffers.Abs(), start, x, end, y);
    }

    // Draw the rest of the line that the critical position is on, from column x
    method FinishLine(x: nat)
      requires Valid() && cy + 1 < HEIGHT && x <= WIDTH_COLS
      modifies this`cy, maybe, buffers.Repr
      ensures Valid() && cy == old(cy) + 1
      ensures Flushed(old(Abs()), Abs(), Pos(x, old(cy)), Pos(0, cy), NO_CELLS)
    {
      ghost var s := Abs();
      CopyCriticalRegionLine(cy, x, WIDTH_COLS);
      ghost var m := Abs();
      cy := cy + 1;
      FlushedElsewhere(s, m, Abs(), Pos(x, old(cy)), Pos(0, cy), NO_CELLS);
    }

    // copy_critical_region, for a beam that is not behind the critical position
    method CopyCriticalRegion(beamX: nat, beamY: nat)
      requires Valid() && beamX <= WIDTH_COLS && beamY < HEIGHT
      requires cy < beamY || (cy == beamY && cx <= beamX)
      modifies this`cx, this`cy, maybe, buffers.Repr
      ensures Valid() && cx == beamX && cy == beamY
      ensures Flushed(old(Abs()), Abs(), old(Pos(cx, cy)), Pos(beamX, beamY), NO_CELLS)
    {
      ghost var s, lo := Abs(), Pos(cx, cy);
      if cy == beamY {
        CopyCriticalRegionLine(cy, cx, beamX);
      } else {
        FinishLine(cx);
        while cy < beamY
          invariant cy <= beamY && Valid() && lo <= Pos(0, cy)
          invariant Flushed(s, Abs(), lo, Pos(0, cy), NO_CELLS)
        {
          ghost var m, y := Abs(), cy;
          FinishLine(0);
          FlushTwice(s, m, Abs(), lo, Pos(0, y), Pos(0, cy));
        }
        ghost var m := Abs();
        CopyCriticalRegionLine(cy, 0, beamX);
        FlushTwice(s, m, Abs(), lo, Pos(0, cy), Pos(beamX, cy));
      }
      ghost var e := Abs();
      cx := beamX;
      FlushedElsewhere(s, e, Abs(), lo, Pos(beamX, beamY), NO_CELLS);
    }

    // display_update_critical, when the display is not ahead of the beam
    method UpdateCritical(x: nat, y: nat)
      requires Valid() && IsPaper(x, y)
      requires Pos(x, y) < Pos(Now().x, Now().y) ==> cy < Now().y || (cy == Now().y && cx <= Now().x)
      modifies this`cachedTstates, this`cachedX, this`cachedY, this`cx, this`cy, maybe, buffers.Repr
      ensures Valid()
      ensures Caught(old(Abs()), Abs(), Now(), Pos(x, y) < Pos(Now().x, Now().y), NO_CELLS)
    {
      UpdateCachedBeam();
      FlushNothing(Abs(), Pos(cx, cy), Pos(cx, cy));
      if y < cachedY || (y == cachedY && x < cachedX) {
        CopyCriticalRegion(cachedX, cachedY);
      }
    }

    // Mark one cell
    method SetMaybe(x: nat, y: nat)
      requires Valid() && IsPaper(x, y)
      modifies maybe
      ensures Valid() && Caught(old(Abs()), Abs(), Now(), false, Single(x, y))
    {
      ghost var s := Abs();
      SetBitBits(maybe[y], x, WIDTH_COLS);
      FlushNothing(s, Pos(cx, cy), Pos(cx, cy));
      maybe[y] := SetBit(maybe[y], x);
      assert Abs().canvas == s.canvas;
    }

    // display_dirty_chunk
    method DirtyChunk(x: nat, y: nat)
      requires Valid() && IsPaper(x, y)
      modifies this`cachedTstates, this`cachedX, this`cachedY, this`cx, this`cy, maybe, buffers.Repr
      ensures Valid()
      ensures Caught(old(Abs()), Abs(), Now(), old(Pos(cx, cy)) <= Pos(x, y) < Pos(Now().x, Now().y), Single(x, y))
    {
      ghost var s := Abs();
      ghost var hit := Pos(cx, cy) <= Pos(x, y) < Pos(Now().x, Now().y);
      CatchUpFor(x, y);
      ghost var m := Abs();
      SetMaybe(x, y);
      CaughtTwice(s, m, Abs(), Now(), hit, false, NO_CELLS, Single(x, y), Single(x, y));
    }

    // Before a cell is marked: is it between the critical position and the beam?
    method CatchUpFor(x: nat, y: nat)
      requires Valid() && IsPaper(x, y)
      modifies this`cachedTstates, this`cachedX, this`cachedY, this`cx, this`cy, maybe, buffers.Repr
      ensures Valid()
      ensures Caught(old(Abs()), Abs(), Now(), old(Pos(cx, cy)) <= Pos(x, y) < Pos(Now().x, Now().y), NO_CELLS)
    {
      FlushNothing(Abs(), Pos(cx, cy), Pos(cx, cy));
      if y > cy || (y == cy && x >= cx) {
        UpdateCritical(x, y);
      }
    }

    // display_dirty8
    method Dirty8(offset: nat)
      requires Valid() && offset < PIXEL_BYTES
      modifies this`cachedTstates, this`cachedX, this`cachedY, this`cx, this`cy, maybe, buffers.Repr
      ensures Valid()
      ensures Caught(old(Abs()), Abs(), Now(), Reaches(old(Abs()), Now(), offset), Touching(offset))
    {
      ghost var s := Abs();
      var x := offset % WIDTH_COLS;
      var y := 64 * ((offset / 2048) % 4) + 8 * ((offset / 32) % 8) + (offset / 256) % 8;
      ReachesOne(s, Now(), offset, x, y);
      DirtyChunk(x, y);
      CaughtMarks(s, Abs(), Now(), Reaches(s, Now(), offset), Single(x, y), Touching(offset));
    }

    // Mark the eight cells below (x, y), as the loop of display_dirty64 does
    method DirtyColumn(x: nat, y: nat)
      requires Valid() && IsPaper(x, y + 7)
      modifies this`cachedTstates, this`cachedX, this`cachedY, this`cx, this`cy, maybe, buffers.Repr
      ensures Valid()
      ensures Caught(old(Abs()), Abs(), Now(), ColumnReaches(old(Abs()), Now(), x, y, 8), Column(x, y, 8))
    {
      ghost var s, p := Abs(), Now();
      FlushNothing(s, s.Critical(), s.Critical());
      CaughtMarks(s, s, p, false, NO_CELLS, Column(x, y, 0));
      var i := 0;
      while i < 8
        invariant i <= 8 && Valid() && Now() == p
        invariant Caught(s, Abs(), p, ColumnReaches(s, p, x, y, i), Column(x, y, i))
      {
        ghost var m := Abs();
        DirtyChunk(x, y + i);
        ColumnStep(s, m, Abs(), p, x, y, i);
        i := i + 1;
      }
    }

    // display_dirty64
    method Dirty64(offset: nat)
      requires Valid() && PIXEL_BYTES <= offset < FILE_SIZE
      modifies this`cachedTstates, this`cachedX, this`cachedY, this`cx, this`cy, maybe, buffers.Repr
      ensures Valid()
      ensures Caught(old(Abs()), Abs(), Now(), Reaches(old(Abs()), Now(), offset), Touching(offset))
    {
      ghost var s := Abs();
      var idx := offset - PIXEL_BYTES;
      var x := idx % WIDTH_COLS;
      var y := (idx / WIDTH_COLS) * 8;
      DirtyColumn(x, y);
      ReachesColumn(s, Now(), offset, x, y);
      CaughtMarks(s, Abs(), Now(), Reaches(s, Now(), offset), Column(x, y, 8), Touching(offset));
    }

    // display_dirty_sinclair
    method DirtySinclair(offset: nat)
      requires Valid() && offset < FILE_SIZE
      modifies this`cachedTstates, this`cachedX, this`cachedY, this`cx, this`cy, maybe, buffers.Repr
      ensures Valid()
      ensures Caught(old(Abs()), Abs(), Now(), Reaches(old(Abs()), Now(), offset), Touching(offset))
    {
      if offset < PIXEL_BYTES {
        Dirty8(offset);
      } else {
        Dirty64(offset);
      }
    }

    // memory_display_dirty_sinclair: called before a store into a RAM page
    method MemoryDisplayDirty(target: nat, offset: nat, b: byte)
      requires Valid() && target < RAM_PAGES && offset < RAM_PAGE
      modifies this`cachedTstates, this`cachedX, this`cachedY, this`cx, this`cy, maybe, buffers.Repr
      ensures Valid()
      ensures if Noticed(old(Abs()).video, Write(target, offset, b))
              then Caught(old(Abs()), Abs(), Now(), Reaches(old(Abs()), Now(), offset), Touching(offset))
              else Abs() == old(Abs())
    {
      if target == page && offset < FILE_SIZE && ram[target * RAM_PAGE + offset] != b {
        DirtySinclair(offset);
      }
    }

    // The store of writebyte_internal into a RAM page
    method WriteRam(target: nat, offset: nat, b: byte)
      requires Valid() && target < RAM_PAGES && offset < RAM_PAGE
      modifies ram, this`cachedTstates, this`cachedX, this`cachedY, this`cx, this`cy, maybe, buffers.Repr
      ensures Valid() && Next(old(Abs()), Now(), Write(target, offset, b), Abs())
    {
      ghost var s := Abs();
      MemoryDisplayDirty(target, offset, b);
      ghost var m := Abs();
      ram[target * RAM_PAGE + offset] := b;
      WriteNext(s, m, Abs(), Now(), target, offset, b);
    }

    // writebyte_internal for memory mapped in by the machine. Stores outside RAM are not
    // part of this model and do not touch the display.
    method WriteByteInternal(mapping: MapEntry, address: nat, b: byte)
      requires Valid() && address < 0x10000
      requires mapping.isRam ==> mapping.pageNum < RAM_PAGES && mapping.offset + 2048 <= RAM_PAGE
      modifies ram, this`cachedTstates, this`cachedX, this`cachedY, this`cx, this`cy, maybe, buffers.Repr
      ensures Valid()
      ensures if mapping.writable && mapping.isRam
              then Next(old(Abs()), Now(), Write(mapping.pageNum, mapping.offset + address % 2048, b), Abs())
              else Abs() == old(Abs())
    {
      if mapping.writable && mapping.isRam {
        WriteRam(mapping.pageNum, mapping.offset + address % 2048, b);
      }
    }

    // display_palette_changed
    method PaletteChanged()
      requires Valid()
      modifies this`cachedTstates, this`cachedX, this`cachedY, this`cx, this`cy
      modifies this`palettePending, maybe, buffers.Repr
      ensures Valid() && palettePending
      ensures PaletteCaught(old(Abs()), Abs(), Now())
    {
      MarkRest();
      palettePending := true;
    }

    // All but the notice that the palette has changed
    method MarkRest()
      requires Valid()
      modifies this`cachedTstates, this`cachedX, this`cachedY, this`cx, this`cy, maybe, buffers.Repr
      ensures Valid() && PaletteCaught(old(Abs()), Abs(), Now())
    {
      ghost var s, hit := Abs(), Now().y > cy || (Now().y == cy && Now().x > cx);
      DrawPassed();
      ghost var m := Abs();
      MarkFrom(cachedX, cachedY);
      PaletteTwice(s, m, Abs(), Now(), hit);
    }

    // Draw what the beam has passed with the old palette
    method DrawPassed()
      requires Valid()
      modifies this`cachedTstates, this`cachedX, this`cachedY, this`cx, this`cy, maybe, buffers.Repr
      ensures Valid() && Point(cachedX, cachedY) == Now()
      ensures Caught(old(Abs()), Abs(), Now(), old(Now().y > cy || (Now().y == cy && Now().x > cx)), NO_CELLS)
    {
      UpdateCachedBeam();
      FlushNothing(Abs(), Pos(cx, cy), Pos(cx, cy));
      if cachedY > cy || (cachedY == cy && cachedX > cx) {
        CopyCriticalRegion(cachedX, cachedY);
      }
    }

    // Mark the cells from the beam on, column x of line y first
    method MarkFrom(x: nat, y: nat)
      requires Valid() && x <= WIDTH_COLS && y < HEIGHT
      modifies maybe
      ensures Valid() && Caught(old(Abs()), Abs(), Now(), false, From(Pos(x, y)))
    {
      ghost var s := Abs();
      FlushNothing(s, s.Critical(), s.Critical());
      var all := Trunc(buffers.allDirty, 32);
      RowMarks(maybe[y], buffers.allDirty, x);
      if x < WIDTH_COLS {
        maybe[y] := Or(maybe[y], Trunc(Shl(all, x), 32));
      }
      var j := y + 1;
      while j < HEIGHT
        modifies maybe
        invariant y < j <= HEIGHT
        invariant forall i :: 0 <= i < y || j <= i < HEIGHT ==> maybe[i] == s.maybe[i]
        invariant maybe[y] == if x < WIDTH_COLS then Or(s.maybe[y], Trunc(Shl(all, x), 32)) else s.maybe[y]
        invariant forall i :: y < i < j ==> maybe[i] == all
      {
        maybe[j] := all;
        j := j + 1;
      }
      MarkedFrom(s, Abs(), Now(), buffers.allDirty, x, y);
    }

    // A write to the ULA+ data port with the palette group selected
    method SetPaletteEntry(entry: nat, b: byte)
      requires Valid() && entry < PALETTE_SIZE
      modifies palette, this`cachedTstates, this`cachedX, this`cachedY, this`cx
      modifies this`cy, this`palettePending, maybe, buffers.Repr
      ensures Valid() && Next(old(Abs()), Now(), SetPalette(entry, b), Abs())
    {
      ghost var s := Abs();
      FlushNothing(s, s.Critical(), s.Critical());
      if palette[entry] != b {
        if ulaplus { PaletteChanged(); }
        ghost var m := Abs();
        palette[entry] := b;
        PaletteNext(s, m, Abs(), Now(), SetPalette(entry, b));
      } else {
        assert s.video.palette[entry := b] == s.video.palette;
      }
    }

    // A write to the ULA+ data port with the mode group selected
    method SetUlaplusMode(on: bool)
      requires Valid()
      modifies this`ulaplus, this`cachedTstates, this`cachedX, this`cachedY, this`cx
      modifies this`cy, this`palettePending, maybe, buffers.Repr
      ensures Valid() && Next(old(Abs()), Now(), SetMode(on), Abs())
    {
      ghost var s := Abs();
      FlushNothing(s, s.Critical(), s.Critical());
      if ulaplus != on {
        PaletteChanged();
        ghost var m := Abs();
        ulaplus := on;
        PaletteNext(s, m, Abs(), Now(), SetMode(on));
      }
    }

    // display_update_critical and display_refresh_main_screen, as called before the screen
    // is replaced
    method CatchUpAndRefresh()
      requires Valid() && (cy < Now().y || (cy == Now().y && cx <= Now().x))
      modifies this`cachedTstates, this`cachedX, this`cachedY, this`cx, this`cy, maybe, buffers.Repr
      ensures Valid() && Caught(old(Abs()), Abs(), Now(), 0 < Pos(Now().x, Now().y), ALL_CELLS)
    {
      ghost var s := Abs();
      UpdateCritical(0, 0);
      ghost var m := Abs();
      RefreshMainScreen();
      AllMarkedAfter(s, m, Abs(), Now(), 0 < Pos(Now().x, Now().y));
    }

    // The machine's paging port showing another screen, when the display is not ahead of the beam
    method ShowScreen(screen: nat)
      requires Valid() && screen < RAM_PAGES
      requires cy < Now().y || (cy == Now().y && cx <= Now().x)
      modifies this`page, this`cachedTstates, this`cachedX, this`cachedY, this`cx, this`cy, maybe, buffers.Repr
      ensures Valid() && Next(old(Abs()), Now(), SwitchScreen(screen), Abs())
    {
      ghost var s := Abs();
      if page != screen {
        CatchUpAndRefresh();
        ghost var m := Abs();
        page := screen;
        SwitchNext(s, m, Abs(), Now(), screen);
      } else {
        SwitchNext(s, s, Abs(), Now(), screen);
      }
    }

    // display_refresh_all
    method RefreshEverything()
      requires Valid()
      modifies maybe, buffers.last, buffers.dirty
      ensures Valid() && Next(old(Abs()), Now(), RefreshAll, Abs())
    {
      RefreshMainScreen();
      buffers.Refresh();
      assert forall x, y :: IsPaper(x, y) ==> Abs().Maybe(x, y);
    }

    // display_dirty_frame_begin
    method FrameBegin()
      requires Valid()
      modifies this`cachedTstates, this`cx, this`cy, this`palettePending, maybe, buffers.Repr
      ensures Valid() && FrameBegun(old(Abs()), Abs())
    {
      ghost var s := Abs();
      cachedTstates := NO_TSTATES;
      assert Abs() == s;
      CopyCriticalRegion(WIDTH_COLS, HEIGHT - 1);
      ghost var m := Abs();
      cx, cy := 0, 0;
      if palettePending {
        RefreshMainScreen();
        palettePending := false;
      }
      FrameBegunFrom(s, m, Abs());
    }

    // display_dirty_flashing_sinclair, before the beam has reached the paper
    method DirtyFlashing()
      requires Valid() && Now() == Point(0, 0)
      modifies this`cachedTstates, this`cachedX, this`cachedY, this`cx, this`cy, maybe, buffers.Repr
      ensures Valid()
      ensures Caught(old(Abs()), Abs(), Point(0, 0), false,
                     if ulaplus then NO_CELLS else Flashing(old(Abs()).video, FILE_SIZE))
    {
      ghost var s := Abs();
      FlushNothing(s, s.Critical(), s.Critical());
      if ulaplus { return; }
      var offset := PIXEL_BYTES;
      CaughtMarks(s, s, Point(0, 0), false, NO_CELLS, Flashing(s.video, offset));
      while offset < FILE_SIZE
        invariant PIXEL_BYTES <= offset <= FILE_SIZE && Valid() && Now() == Point(0, 0)
        invariant Caught(s, Abs(), Point(0, 0), false, Flashing(s.video, offset))
      {
        ghost var m := Abs();
        var attr := ram[page * RAM_PAGE + offset];
        if attr / 128 % 2 == 1 {
          Dirty64(offset);
          FlashingStep(s, m, Abs(), offset);
        } else {
          FlashingSkip(s, m, offset);
        }
        offset := offset + 1;
      }
    }

    // One half of display_render_frame: the flash phase turns
    method TurnFlash(on: bool)
      requires Valid() && Now() == Point(0, 0) && (frames == 16 || frames == 32) && on == (frames == 16)
      modifies this`flash, this`cachedTstates, this`cachedX, this`cachedY, this`cx, this`cy, maybe, buffers.Repr
      ensures Valid() && flash == on
      ensures FlashTurned(old(Abs()), Abs())
    {
      flash := on;
      ghost var m := Abs();
      DirtyFlashing();
      FlashTurnedFrom(m, Abs());
    }

    // display_render_frame, before the beam has reached the paper
    method RenderFrame()
      requires Valid() && Now() == Point(0, 0)
      modifies this`flash, this`frames, this`cachedTstates, this`cachedX, this`cachedY
      modifies this`cx, this`cy, maybe, buffers.Repr
      ensures Valid() && FlashCounted(old(Abs()), Abs())
    {
      ghost var s := Abs();
      frames := frames + 1;
      ghost var m := Abs();
      if frames == 16 {
        TurnFlash(true);
      } else if frames == 32 {
        TurnFlash(false);
        frames := 0;
      }
      FlashCountedFrom(s, m, Abs());
    }
  }
}
