/** The per-cell buffers shared by paper and border drawing: what was last drawn in each
    cell, which cells changed since the UI was told, and the UI's own picture. */
module Canvas {
  import opened Bits
  import opened Video

  datatype CanvasState = CanvasState(last: seq<nat>, colours: seq<nat>, dirty: seq<nat>, plotted: seq<Cell>)
  {
    ghost predicate Valid() {
      && |last| == |colours| == |plotted| == SCREEN_CELLS
      && |dirty| == SCREEN_HEIGHT
      && forall y :: 0 <= y < SCREEN_HEIGHT ==> Fits(dirty[y], SCREEN_WIDTH_COLS)
    }

    // Each record is either void or the truth about what is plotted
    ghost predicate Recorded()
      requires Valid()
    {
      forall i :: 0 <= i < SCREEN_CELLS ==>
        last[i] == INVALID || plotted[i] == Render(last[i], colours[i])
    }

    predicate DirtyAt(x: nat, y: nat)
      requires |dirty| == SCREEN_HEIGHT && y < SCREEN_HEIGHT
    {
      Bit(dirty[y], x)
    }

    // Cell (x, y) holds the same thing here as there
    predicate SameCell(that: CanvasState, x: nat, y: nat)
      requires |last| == |colours| == |plotted| == SCREEN_CELLS && |dirty| == SCREEN_HEIGHT
      requires |that.last| == |that.colours| == |that.plotted| == SCREEN_CELLS && |that.dirty| == SCREEN_HEIGHT
      requires OnScreen(x, y)
    {
      var i := Index(x, y);
      && last[i] == that.last[i] && colours[i] == that.colours[i] && plotted[i] == that.plotted[i]
      && DirtyAt(x, y) == that.DirtyAt(x, y)
    }
  }

  // Would drawing this record change anything?
  predicate Drawn(c: CanvasState, x: nat, y: nat, word: nat, colours: nat)
    requires |c.last| == |c.colours| == SCREEN_CELLS && OnScreen(x, y)
  {
    c.last[Index(x, y)] == word && (WordUlaplus(word) ==> c.colours[Index(x, y)] == colours)
  }

  // Draw a cell unless its record says it is there already
  function Put(c: CanvasState, x: nat, y: nat, word: nat, colours: nat, cell: Cell): CanvasState
    requires |c.last| == |c.colours| == |c.plotted| == SCREEN_CELLS && |c.dirty| == SCREEN_HEIGHT
    requires OnScreen(x, y)
  {
    var i := Index(x, y);
    if Drawn(c, x, y, word, colours) then c
    else CanvasState(c.last[i := word],
                     if WordUlaplus(word) then c.colours[i := colours] else c.colours,
                     c.dirty[y := SetBit(c.dirty[y], x)],
                     c.plotted[i := cell])
  }

  // Skipping a draw on the strength of the record is sound: afterwards the cell shows
  // what was asked for, its record says so, and a cell that changed is marked dirty.
  lemma PutShows(c: CanvasState, x: nat, y: nat, word: nat, colours: nat, cell: Cell)
    requires c.Valid() && c.Recorded() && OnScreen(x, y)
    requires cell == Render(word, colours) && word != INVALID
    ensures var d := Put(c, x, y, word, colours, cell);
            && d.Valid() && d.Recorded()
            && d.plotted[Index(x, y)] == cell
            && Drawn(d, x, y, word, colours)
            && (d.plotted[Index(x, y)] != c.plotted[Index(x, y)] ==> d.DirtyAt(x, y))
            && (c.DirtyAt(x, y) ==> d.DirtyAt(x, y))
            && forall x', y' :: OnScreen(x', y') && (x' != x || y' != y) ==> d.SameCell(c, x', y')
  {
    SetBitBits(c.dirty[y], x, SCREEN_WIDTH_COLS);
    var d := Put(c, x, y, word, colours, cell);
    forall x', y' | OnScreen(x', y') && (x' != x || y' != y) ensures d.SameCell(c, x', y') {
      assert Index(x', y') != Index(x, y);
    }
  }

  // The cells are all there is to a canvas
  lemma SameCells(c: CanvasState, d: CanvasState)
    requires c.Valid() && d.Valid() && forall x, y :: OnScreen(x, y) ==> c.SameCell(d, x, y)
    ensures c == d
  {
    forall i | 0 <= i < SCREEN_CELLS
      ensures c.last[i] == d.last[i] && c.colours[i] == d.colours[i] && c.plotted[i] == d.plotted[i]
    {
      var x, y := i % 40, i / 40;
      assert c.SameCell(d, x, y) && Index(x, y) == i;
    }
    forall y | 0 <= y < SCREEN_HEIGHT ensures c.dirty[y] == d.dirty[y] {
      forall i: nat | i < SCREEN_WIDTH_COLS ensures Bit(c.dirty[y], i) == Bit(d.dirty[y], i) {
        assert c.SameCell(d, i, y);
      }
      SameBits(c.dirty[y], d.dirty[y], SCREEN_WIDTH_COLS);
    }
  }

  // From c to d nothing changed without being marked, and no mark was lost
  ghost predicate Grown(c: CanvasState, d: CanvasState)
    requires c.Valid() && d.Valid()
  {
    forall x, y {:trigger d.DirtyAt(x, y)} :: OnScreen(x, y) ==>
      && (c.DirtyAt(x, y) ==> d.DirtyAt(x, y))
      && (d.plotted[Index(x, y)] == c.plotted[Index(x, y)] || d.DirtyAt(x, y))
  }

  lemma GrownTwice(c: CanvasState, d: CanvasState, e: CanvasState)
    requires c.Valid() && d.Valid() && e.Valid() && Grown(c, d) && Grown(d, e)
    ensures Grown(c, e)
  {
    forall x, y | OnScreen(x, y)
      ensures (c.DirtyAt(x, y) ==> e.DirtyAt(x, y))
      ensures (e.plotted[Index(x, y)] == c.plotted[Index(x, y)] || e.DirtyAt(x, y))
    {
      var _ := d.DirtyAt(x, y);
    }
  }

  // Pixel (px, y) of the picture as display_getpixel reads it back from the records
  function GetPixel(c: CanvasState, flash: bool, px: nat, y: nat): nat
    requires |c.last| == |c.colours| == SCREEN_CELLS && px < 320 && y < SCREEN_HEIGHT
  {
    var i := Index(px / 8, y);
    var word, colours := c.last[i], c.colours[i];
    var lit := Bit(WordData(word), 7 - px % 8);
    if WordUlaplus(word) then (if lit then colours / 0x10000 else colours % 0x10000)
    else if lit then AttrInk(WordAttr(word), flash) else AttrPaper(WordAttr(word), flash)
  }

  function CellPixel(cell: Cell, i: nat): nat
    requires i < 8
  {
    if Bit(cell.data, 7 - i) then cell.ink else cell.paper
  }

  // Reading a pixel back gives the plotted pixel, provided that the cell was drawn in the
  // flash phase now in force or that its record does not flash
  lemma GetPixelReadsPlotted(c: CanvasState, flash: bool, px: nat, y: nat)
    requires c.Valid() && c.Recorded() && px < 320 && y < SCREEN_HEIGHT
    requires c.last[Index(px / 8, y)] != INVALID
    requires var word := c.last[Index(px / 8, y)];
             WordUlaplus(word) || WordAttr(word) < 128 || WordFlash(word) == flash
    ensures GetPixel(c, flash, px, y) == CellPixel(c.plotted[Index(px / 8, y)], px % 8)
  {
  }

  // v is the word of w one bits
  ghost predicate AllSet(v: nat, w: nat) {
    Fits(v, w) && forall i: nat :: Bit(v, i) == (i < w)
  }

  lemma OnesSet(w: nat)
    ensures AllSet(Ones(w), w)
  {
    OnesBit(w, 0);
    forall i: nat ensures Bit(Ones(w), i) == (i < w) { OnesBit(w, i); }
  }

  // display_dirty_init
  method DirtyInit(columns: nat) returns (all: nat)
    ensures AllSet(all, columns)
  {
    OnesIsShl(columns);
    OnesSet(columns);
    all := Shl(1, columns) - 1;
  }

  class Buffers {
    const last: array<nat>          // display_last_screen
    const colours: array<nat>       // display_last_colours
    const dirty: array<nat>         // display_is_dirty
    const plotted: array<Cell>      // the UI's picture, as uidisplay_plot8 built it
    const allDirty: nat             // display_all_dirty: one bit for each column

    ghost const Repr: set<object> := {last, colours, dirty, plotted}

    ghost predicate Distinct() {
      && AllSet(allDirty, SCREEN_WIDTH_COLS)
      && last != colours && last != dirty && colours != dirty
      && last as object != plotted && colours as object != plotted && dirty as object != plotted
      && last.Length == colours.Length == plotted.Length == SCREEN_CELLS && dirty.Length == SCREEN_HEIGHT
    }

    ghost function Abs(): CanvasState
      reads Repr
    {
      CanvasState(last[..], colours[..], dirty[..], plotted[..])
    }

    ghost predicate Valid()
      reads Repr
    {
      Distinct() && Abs().Valid() && Abs().Recorded()
    }

    constructor ()
      ensures Valid() && fresh(Repr)
      ensures forall i :: 0 <= i < SCREEN_CELLS ==> last[i] == INVALID
      ensures forall y :: 0 <= y < SCREEN_HEIGHT ==> dirty[y] == allDirty
    {
      var all := DirtyInit(SCREEN_WIDTH_COLS);
      allDirty := all;
      last := new nat[SCREEN_CELLS];
      colours := new nat[SCREEN_CELLS];
      dirty := new nat[SCREEN_HEIGHT](_ => 0);
      plotted := new Cell[SCREEN_CELLS];
      new;
      Refresh();
    }

    // display_mark_screen_dirty
    method MarkDirty(x: nat, y: nat)
      requires Distinct() && OnScreen(x, y)
      modifies dirty
      ensures dirty[..] == old(dirty[..])[y := SetBit(old(dirty[y]), x)]
    {
      dirty[y] := SetBit(dirty[y], x);
    }

    // Draw a standard cell if its record differs
    method DrawStandard(x: nat, y: nat, word: nat, cell: Cell)
      requires Valid() && OnScreen(x, y)
      requires !WordUlaplus(word) && word != INVALID && cell == Render(word, 0)
      modifies Repr
      ensures Valid() && Abs() == Put(old(Abs()), x, y, word, 0, cell)
    {
      PutShows(Abs(), x, y, word, 0, cell);
      var i := Index(x, y);
      if last[i] != word {
        plotted[i] := cell;
        last[i] := word;
        MarkDirty(x, y);
      }
      assert Abs() == Put(old(Abs()), x, y, word, 0, cell);
    }

    // Draw a cell with ULA+ colours if its record or its colours differ
    method DrawUlaplus(x: nat, y: nat, word: nat, cols: nat, cell: Cell)
      requires Valid() && OnScreen(x, y)
      requires WordUlaplus(word) && word != INVALID && cell == Render(word, cols)
      modifies Repr
      ensures Valid() && Abs() == Put(old(Abs()), x, y, word, cols, cell)
    {
      PutShows(Abs(), x, y, word, cols, cell);
      var i := Index(x, y);
      if last[i] != word || colours[i] != cols {
        plotted[i] := cell;
        last[i] := word;
        colours[i] := cols;
        MarkDirty(x, y);
      }
      assert Abs() == Put(old(Abs()), x, y, word, cols, cell);
    }

    // display_dirty_refresh_all
    method RefreshDirty()
      requires Distinct()
      modifies dirty
      ensures forall y :: 0 <= y < SCREEN_HEIGHT ==> dirty[y] == allDirty
    {
      for y := 0 to SCREEN_HEIGHT
        invariant forall j :: 0 <= j < y ==> dirty[j] == allDirty
      {
        dirty[y] := allDirty;
      }
    }

    // The buffers' share of display_refresh_all: every record void, every cell to be shown
    method Refresh()
      requires Distinct()
      modifies last, dirty
      ensures Valid()
      ensures colours[..] == old(colours[..]) && plotted[..] == old(plotted[..])
      ensures forall i :: 0 <= i < SCREEN_CELLS ==> last[i] == INVALID
      ensures forall y :: 0 <= y < SCREEN_HEIGHT ==> dirty[y] == allDirty
    {
      RefreshDirty();
      for i := 0 to SCREEN_CELLS
        modifies last
        invariant forall j :: 0 <= j < i ==> last[j] == INVALID
      {
        last[i] := INVALID;
      }
    }
  }
}
