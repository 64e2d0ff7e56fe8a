/** Screen geometry, the display file, and what a fresh draw of a cell would show.
    A cell is one row of eight pixels; paper cell (x, y) has 0 <= x < 32 and 0 <= y < 192. */
module Video {

  const WIDTH_COLS: nat := 32
  const HEIGHT: nat := 192
  const BORDER_WIDTH_COLS: nat := 4
  const BORDER_HEIGHT: nat := 24
  const SCREEN_WIDTH_COLS: nat := 40
  const SCREEN_HEIGHT: nat := 240
  const SCREEN_CELLS: nat := 9600
  const PIXEL_BYTES: nat := 6144
  const FILE_SIZE: nat := 6912
  const RAM_PAGE: nat := 0x4000
  const RAM_PAGES: nat := 65
  const RAM_BYTES: nat := 1064960
  const ULAPLUS_BASE: nat := 16
  const PALETTE_SIZE: nat := 64
  // Marks a cell drawn from the ULA+ palette in its record
  const ULAPLUS_MARK: nat := 0x0200_0000
  // The record of a cell that must be redrawn whatever it shows
  const INVALID: nat := 0xffff_ffff

  type byte = b: nat | b < 256

  predicate IsPaper(x: int, y: int) { 0 <= x < 32 && 0 <= y < 192 }

  predicate OnScreen(x: int, y: int) { 0 <= x < 40 && 0 <= y < 240 }

  // Index of screen cell (x, y) in the per-cell buffers
  function Index(x: nat, y: nat): (i: nat)
    requires OnScreen(x, y)
    ensures i < SCREEN_CELLS
  {
    x + y * 40
  }

  // Position of paper cell (x, y) along the beam's path over the paper. The first line is told
  // apart because Pos(0, 0) would otherwise be rewritten without end.
  function Pos(x: nat, y: nat): nat { if y == 0 then x else 32 * y + x }

  // Where the pixel bytes of line y start: thirds, then pixel rows, then character rows
  function LineStart(y: nat): (r: nat)
    requires y < 192
    ensures r <= PIXEL_BYTES - 32
  {
    32 * (64 * (y / 64) + (y / 8) % 8 + (y % 8) * 8)
  }

  function AttrStart(y: nat): (r: nat)
    requires y < 192
    ensures PIXEL_BYTES <= r <= FILE_SIZE - 32
  {
    PIXEL_BYTES + 32 * (y / 8)
  }

  // The cell whose pixels are stored at a pixel byte
  function PixelCol(offset: nat): (x: nat)
    ensures x < 32
  {
    offset % 32
  }

  function PixelLine(offset: nat): (y: nat)
    requires offset < PIXEL_BYTES
    ensures y < 192
  {
    64 * ((offset / 2048) % 4) + 8 * ((offset / 32) % 8) + (offset / 256) % 8
  }

  // The digits of a pixel address: third i, character row j, pixel row k, column c
  lemma PixelDigits(i: nat, j: nat, k: nat, c: nat)
    requires i < 3 && j < 8 && k < 8 && c < 32
    ensures var offset := 2048 * i + 256 * k + 32 * j + c;
            offset < PIXEL_BYTES && PixelCol(offset) == c && PixelLine(offset) == 64 * i + 8 * j + k
  {
    var offset := 2048 * i + 256 * k + 32 * j + c;
    assert offset / 2048 == i;
    assert offset / 256 == 8 * i + k;
    assert offset / 32 == 8 * (8 * i + k) + j;
  }

  lemma LineDigits(i: nat, j: nat, k: nat)
    requires i < 3 && j < 8 && k < 8
    ensures LineStart(64 * i + 8 * j + k) == 2048 * i + 256 * k + 32 * j
  {
    var y := 64 * i + 8 * j + k;
    assert y / 8 == 8 * i + j && y / 64 == i;
  }

  // The decoding of a pixel address inverts the table of line starts, both ways round
  lemma PixelAddressBijection(offset: nat, x: nat, y: nat)
    requires offset < PIXEL_BYTES && IsPaper(x, y)
    ensures LineStart(y) + x == offset <==> (PixelCol(offset) == x && PixelLine(offset) == y)
  {
    var i, j, k := y / 64, (y / 8) % 8, y % 8;
    assert y == 64 * i + 8 * j + k;
    LineDigits(i, j, k);
    PixelDigits(i, j, k, x);
    PixelAddressDecodes(offset);
  }

  lemma PixelAddressDecodes(offset: nat)
    requires offset < PIXEL_BYTES
    ensures LineStart(PixelLine(offset)) + PixelCol(offset) == offset
  {
    var i, j, k, c := offset / 2048, (offset / 32) % 8, (offset / 256) % 8, offset % 32;
    assert offset / 256 == 8 * i + k;
    assert offset / 32 == 8 * (offset / 256) + j;
    LineDigits(i, j, k);
    PixelDigits(i, j, k, c);
  }

  // An attribute byte belongs to eight cells: one column of one character row
  lemma AttrAddress(offset: nat, x: nat, y: nat)
    requires PIXEL_BYTES <= offset < FILE_SIZE && IsPaper(x, y)
    ensures AttrStart(y) + x == offset
       <==> ((offset - PIXEL_BYTES) % 32 == x && (offset - PIXEL_BYTES) / 32 == y / 8)
  {
  }

  // What uidisplay_plot8 was given: pixel i is ink where bit 7 - i of data is set
  datatype Cell = Cell(data: nat, ink: nat, paper: nat)

  // Everything the picture of the paper depends on
  datatype Video = Video(ram: seq<byte>, page: nat, palette: seq<byte>, ulaplus: bool, flash: bool)
  {
    predicate Valid() {
      |ram| == RAM_BYTES && page < RAM_PAGES && |palette| == PALETTE_SIZE
    }

    function Data(x: nat, y: nat): byte
      requires Valid() && IsPaper(x, y)
    {
      ram[page * RAM_PAGE + LineStart(y) + x]
    }

    function Attr(x: nat, y: nat): byte
      requires Valid() && IsPaper(x, y)
    {
      ram[page * RAM_PAGE + AttrStart(y) + x]
    }

    function Colour(entry: nat): byte
      requires Valid()
    {
      palette[entry % PALETTE_SIZE]
    }
  }

  function AttrInk(attr: nat, flash: bool): nat {
    if attr / 128 % 2 == 1 && flash then attr / 8 % 16 else attr % 8 + 8 * (attr / 64 % 2)
  }

  function AttrPaper(attr: nat, flash: bool): nat {
    if attr / 128 % 2 == 1 && flash then attr % 8 + 8 * (attr / 64 % 2) else attr / 8 % 16
  }

  function UlaplusInk(v: Video, attr: byte): (c: nat)
    requires v.Valid()
    ensures c < 0x10000
  {
    ULAPLUS_BASE + v.Colour((attr / 64) * 16 + attr % 8)
  }

  function UlaplusPaper(v: Video, attr: byte): (c: nat)
    requires v.Valid()
    ensures c < 0x10000
  {
    ULAPLUS_BASE + v.Colour((attr / 64) * 16 + 8 + attr / 8 % 8)
  }

  // The picture of a paper cell, drawn now
  function Fresh(v: Video, x: nat, y: nat): Cell
    requires v.Valid() && IsPaper(x, y)
  {
    var attr := v.Attr(x, y);
    if v.ulaplus then Cell(v.Data(x, y), UlaplusInk(v, attr), UlaplusPaper(v, attr))
    else Cell(v.Data(x, y), AttrInk(attr, v.flash), AttrPaper(attr, v.flash))
  }

  // The record that a draw leaves in display_last_screen, and its display_last_colours word
  function FreshWord(v: Video, x: nat, y: nat): nat
    requires v.Valid() && IsPaper(x, y)
  {
    if v.ulaplus then ULAPLUS_MARK + v.Attr(x, y) * 256 + v.Data(x, y)
    else (if v.flash then 0x0100_0000 else 0) + v.Attr(x, y) * 256 + v.Data(x, y)
  }

  function FreshColours(v: Video, x: nat, y: nat): nat
    requires v.Valid() && IsPaper(x, y)
  {
    UlaplusInk(v, v.Attr(x, y)) * 0x10000 + UlaplusPaper(v, v.Attr(x, y))
  }

  function WordData(word: nat): nat { word % 256 }

  function WordAttr(word: nat): nat { word / 256 % 256 }

  predicate WordFlash(word: nat) { word / 0x0100_0000 % 2 == 1 }

  predicate WordUlaplus(word: nat) { word / ULAPLUS_MARK % 2 == 1 }

  // The picture that a record stands for, with the flash phase it was drawn in
  function Render(word: nat, colours: nat): Cell {
    if WordUlaplus(word) then Cell(WordData(word), colours / 0x10000, colours % 0x10000)
    else Cell(WordData(word), AttrInk(WordAttr(word), WordFlash(word)), AttrPaper(WordAttr(word), WordFlash(word)))
  }

  // A record stands for the picture drawn with it
  lemma RecordOfFreshDraw(v: Video, x: nat, y: nat)
    requires v.Valid() && IsPaper(x, y)
    ensures Render(FreshWord(v, x, y), FreshColours(v, x, y)) == Fresh(v, x, y)
    ensures FreshWord(v, x, y) != INVALID
    ensures WordUlaplus(FreshWord(v, x, y)) == v.ulaplus
    ensures WordData(FreshWord(v, x, y)) == v.Data(x, y) && WordAttr(FreshWord(v, x, y)) == v.Attr(x, y)
    ensures !v.ulaplus ==> WordFlash(FreshWord(v, x, y)) == v.flash
  {
    var d: nat, a: nat := v.Data(x, y), v.Attr(x, y);
    var low := a * 256 + d;
    assert low < 0x10000;
    if v.ulaplus {
      PackedWord(2, a, d);
    } else if v.flash {
      PackedWord(1, a, d);
    } else {
      PackedWord(0, a, d);
    }
    var p := UlaplusPaper(v, v.Attr(x, y));
    assert p < 0x10000;
  }

  lemma PackedWord(top: nat, attr: nat, data: nat)
    requires top < 4 && attr < 256 && data < 256
    ensures var w := top * 0x0100_0000 + attr * 256 + data;
            WordData(w) == data && WordAttr(w) == attr
            && WordFlash(w) == (top % 2 == 1) && WordUlaplus(w) == (top / 2 == 1) && w != INVALID
  {
    var w := top * 0x0100_0000 + attr * 256 + data;
    assert w / 256 == top * 0x1_0000 + attr;
    assert w / 0x0100_0000 == top;
    assert w / ULAPLUS_MARK == top / 2;
  }
}
