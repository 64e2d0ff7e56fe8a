/** The picture of a Spectrum dot by dot, from plain numbers: what the screen shows if the ULA takes
    at every moment what memory, palette and border port then hold. */
module Ula {
  import opened Bits
  import opened Video
  import opened Canvas
  import opened Beam
  import L = Lazy
  import B = Border
  import F = Frame

  // ---------------------------------------------------------------- the machine at a T-state

  // What a byte of memory, b when the frame began, was last set to before T-state t
  function ByteAt(b: byte, ops: seq<L.Timed>, t: int, page: nat, offset: nat): byte {
    var n := |ops| - 1;
    if ops == [] then b
    else if ops[n].t < t && ops[n].op.Write? && ops[n].op.page == page && ops[n].op.offset == offset then ops[n].op.b
    else ByteAt(b, ops[..n], t, page, offset)
  }

  // The same for an entry of the palette
  function EntryAt(b: byte, ops: seq<L.Timed>, t: int, entry: nat): byte {
    var n := |ops| - 1;
    if ops == [] then b
    else if ops[n].t < t && ops[n].op.SetPalette? && ops[n].op.entry == entry then ops[n].op.b
    else EntryAt(b, ops[..n], t, entry)
  }

  // For the ULA+ mode
  function ModeAt(on: bool, ops: seq<L.Timed>, t: int): bool {
    var n := |ops| - 1;
    if ops == [] then on
    else if ops[n].t < t && ops[n].op.SetMode? then ops[n].op.on
    else ModeAt(on, ops[..n], t)
  }

  // For the page that is shown
  function PageAt(page: nat, ops: seq<L.Timed>, t: int): nat {
    var n := |ops| - 1;
    if ops == [] then page
    else if ops[n].t < t && ops[n].op.SwitchScreen? then ops[n].op.page
    else PageAt(page, ops[..n], t)
  }

  // And for the border port
  function PortAt(colour: nat, outs: seq<B.Event>, t: int): nat {
    var n := |outs| - 1;
    if outs == [] then colour else if outs[n].t < t then outs[n].colour else PortAt(colour, outs[..n], t)
  }

  // ---------------------------------------------------------------- dots

  // Is dot i of eight set? The leftmost one is the highest bit.
  predicate Set(data: nat, i: nat)
    requires i < 8
  {
    data / [128, 64, 32, 16, 8, 4, 2, 1][i] % 2 == 1
  }

  // A dot of one of the 16 colours: three bits for ink, three for paper, bright and flash
  function Dot(lit: bool, attr: nat, flash: bool): nat {
    var ink := if attr / 128 == 1 && flash then !lit else lit;
    8 * (attr / 64 % 2) + if ink then attr % 8 else attr / 8 % 8
  }

  // The palette entry of a dot with ULA+: flash and bright choose one of four tables of eight inks
  // and eight papers
  function EntryOf(lit: bool, attr: byte): (entry: nat)
    ensures entry < 64
  {
    16 * (attr / 64) + if lit then attr % 8 else 8 + attr / 8 % 8
  }

  // A dot of a plotted cell, or of the window
  function Plotted(cell: Cell, i: nat): nat
    requires i < 8
  {
    if Set(cell.data, i) then cell.ink else cell.paper
  }

  lemma SetIsBit(data: nat, i: nat)
    requires i < 8
    ensures Set(data, i) == Bit(data, 7 - i)
  {
    BitDivides(data, 7 - i);
    var weights := [128, 64, 32, 16, 8, 4, 2, 1];
    assert weights[7 - (7 - i)] == Power(7 - i) by { Powers(); }
  }

  function Power(n: nat): nat
    ensures Power(n) > 0
  {
    if n == 0 then 1 else 2 * Power(n - 1)
  }

  lemma Powers()
    ensures Power(0) == 1 && Power(1) == 2 && Power(2) == 4 && Power(3) == 8
    ensures Power(4) == 16 && Power(5) == 32 && Power(6) == 64 && Power(7) == 128
  {
    assert Power(3) == 8;
    assert Power(6) == 64;
  }

  lemma {:induction false} BitDivides(v: nat, i: nat)
    ensures Bit(v, i) <==> v / Power(i) % 2 == 1
  {
    if i > 0 {
      BitDivides(v / 2, i - 1);
      Halved(v, Power(i - 1));
    }
  }

  lemma Halved(v: nat, p: nat)
    requires p > 0
    ensures v / 2 / p == v / (2 * p)
  {
    var q := v / (2 * p);
    var r := v - q * (2 * p);
    assert v == q * (2 * p) + r && 0 <= r < 2 * p;
    assert v / 2 == q * p + r / 2;
    assert 0 <= r / 2 < p;
    QuotientIs(v / 2, p, q, r / 2);
  }

  lemma QuotientIs(n: nat, p: nat, q: nat, r: nat)
    requires p > 0 && n == q * p + r && r < p
    ensures n / p == q
  {
    DivBounds(n, p);
    QuotientsOrdered(q, n / p, p, n, n);
    QuotientsOrdered(n / p, q, p, n, n);
  }

  // An attribute of flash f, bright b, paper p and ink i shows ink and paper of that brightness, and
  // they change places exactly when it flashes and the phase is on
  lemma AttributeShows(f: nat, b: nat, p: nat, i: nat, flash: bool)
    requires f < 2 && b < 2 && p < 8 && i < 8
    ensures var attr, turned := 128 * f + 64 * b + 8 * p + i, f == 1 && flash;
            && AttrInk(attr, flash) == 8 * b + (if turned then p else i)
            && AttrPaper(attr, flash) == 8 * b + (if turned then i else p)
  {
    var attr := 128 * f + 64 * b + 8 * p + i;
    assert attr / 128 == f && attr / 64 == 2 * f + b && attr / 8 == 16 * f + 8 * b + p;
  }

  lemma Digits(attr: byte)
    ensures var f, b, p, i := attr / 128, attr / 64 % 2, attr / 8 % 8, attr % 8;
            f < 2 && b < 2 && p < 8 && i < 8 && attr == 128 * f + 64 * b + 8 * p + i
  {
    assert attr / 64 == 2 * (attr / 128) + attr / 64 % 2;
    assert attr / 8 == 8 * (attr / 64) + attr / 8 % 8;
  }

  lemma DotIsDrawn(cell: Cell, attr: byte, flash: bool, i: nat)
    requires i < 8 && cell.ink == AttrInk(attr, flash) && cell.paper == AttrPaper(attr, flash)
    ensures Plotted(cell, i) == Dot(Set(cell.data, i), attr, flash)
  {
    Digits(attr);
    AttributeShows(attr / 128, attr / 64 % 2, attr / 8 % 8, attr % 8, flash);
  }

  lemma EntryIsDrawn(v: Video, attr: byte, lit: bool)
    requires v.Valid()
    ensures (if lit then UlaplusInk(v, attr) else UlaplusPaper(v, attr)) - 16 == v.palette[EntryOf(lit, attr)]
  {
    assert attr / 64 < 4;
  }

  // ---------------------------------------------------------------- the paper

  // Where the dots of column x and line y are kept
  function DotsOf(x: nat, y: nat): (offset: nat)
    ensures IsPaper(x, y) ==> offset < 6144
  {
    2048 * (y / 64) + 32 * (y / 8 % 8) + 256 * (y % 8) + x
  }

  function AttributeOf(x: nat, y: nat): (offset: nat)
    ensures IsPaper(x, y) ==> 6144 <= offset < 6912
  {
    6144 + 32 * (y / 8) + x
  }

  // A byte of RAM as of T-state t
  function RamAt(v: Video, ops: seq<L.Timed>, t: int, page: nat, offset: nat): byte
    requires v.Valid() && page < 65 && offset < 0x4000
  {
    ByteAt(v.ram[0x4000 * page + offset], ops, t, page, offset)
  }

  // Dot i of column x of line y of the paper, if the ULA takes what is there at T-state t
  function PaperAt(v: Video, ops: seq<L.Timed>, t: int, x: nat, y: nat, i: nat): nat
    requires v.Valid() && PageAt(v.page, ops, t) < 65 && IsPaper(x, y) && i < 8
  {
    var page := PageAt(v.page, ops, t);
    var lit := Set(RamAt(v, ops, t, page, DotsOf(x, y)), i);
    var attr := RamAt(v, ops, t, page, AttributeOf(x, y));
    if ModeAt(v.ulaplus, ops, t) then
      var entry := EntryOf(lit, attr);
      16 + EntryAt(v.palette[entry], ops, t, entry)
    else Dot(lit, attr, v.flash)
  }

  // When it does so: the beam has just left the column
  function Moment(tm: Timing, x: nat, y: nat): nat
    requires tm.Valid() && IsPaper(x, y)
  {
    tm.lineTimes[y + 24] + 4 * (x + 5)
  }

  // One operation more, after the others
  lemma {:induction false} InputsAppend(tm: Timing, v: Video, ops: seq<L.Timed>, k: nat)
    requires tm.Valid() && v.Valid() && L.RunValid(ops) && ops != []
    ensures var n := |ops| - 1;
            var w := L.InputsAt(tm, v, ops[..n], k);
            L.InputsAt(tm, v, ops, k) == if k < Passed(tm, ops[n].t) then w else L.Apply(w, ops[n].op)
    decreases |ops|
  {
    var n := |ops| - 1;
    if n > 0 {
      PassedMonotone(tm, ops[0].t, ops[n].t);
      if k >= Passed(tm, ops[0].t) {
        InputsAppend(tm, L.Apply(v, ops[0].op), ops[1..], k);
        assert ops[..n][1..] == ops[1..][..n - 1];
      }
    }
  }

  // The inputs that decide a cell hold what memory, palette and mode hold at its moment
  ghost predicate Sampled(w: Video, v: Video, ops: seq<L.Timed>, t: int)
    requires v.Valid()
  {
    && w.Valid() && w.page == PageAt(v.page, ops, t) && w.ulaplus == ModeAt(v.ulaplus, ops, t) && w.flash == v.flash
    && (forall entry {:trigger w.palette[entry]} :: 0 <= entry < 64 ==>
          w.palette[entry] == EntryAt(v.palette[entry], ops, t, entry))
    && forall page, offset {:trigger RamAt(v, ops, t, page, offset)} :: 0 <= page < 65 && 0 <= offset < 0x4000 ==>
         w.ram[0x4000 * page + offset] == RamAt(v, ops, t, page, offset)
  }

  lemma {:induction false} InputsSampled(tm: Timing, v: Video, ops: seq<L.Timed>, x: nat, y: nat)
    requires tm.Valid() && tm.perLine >= 144 && v.Valid() && L.RunValid(ops) && IsPaper(x, y)
    ensures Sampled(L.InputsAt(tm, v, ops, Pos(x, y)), v, ops, Moment(tm, x, y))
  {
    if ops != [] {
      var n := |ops| - 1;
      InputsSampled(tm, v, ops[..n], x, y);
      InputsAppend(tm, v, ops, Pos(x, y));
      PassedWhen(tm, ops[n].t, x, y);
      SampledOnce(L.InputsAt(tm, v, ops[..n], Pos(x, y)), v, ops, Moment(tm, x, y));
    }
  }

  lemma SampledOnce(w: Video, v: Video, ops: seq<L.Timed>, t: int)
    requires v.Valid() && ops != [] && L.OpValid(ops[|ops| - 1].op) && Sampled(w, v, ops[..|ops| - 1], t)
    ensures var last := ops[|ops| - 1];
            Sampled(if last.t < t then L.Apply(w, last.op) else w, v, ops, t)
  {
    var n, last := |ops| - 1, ops[|ops| - 1];
    var w' := if last.t < t then L.Apply(w, last.op) else w;
    forall page, offset | 0 <= page < 65 && 0 <= offset < 0x4000
      ensures w'.ram[0x4000 * page + offset] == RamAt(v, ops, t, page, offset)
    {
      assert w.ram[0x4000 * page + offset] == RamAt(v, ops[..n], t, page, offset);
    }
  }

  lemma BytesSampled(w: Video, v: Video, ops: seq<L.Timed>, t: int, x: nat, y: nat)
    requires v.Valid() && Sampled(w, v, ops, t) && IsPaper(x, y)
    ensures DotsOf(x, y) < 0x4000 && w.Data(x, y) == RamAt(v, ops, t, w.page, DotsOf(x, y))
    ensures AttributeOf(x, y) < 0x4000 && w.Attr(x, y) == RamAt(v, ops, t, w.page, AttributeOf(x, y))
  {
    var _, _ := RamAt(v, ops, t, w.page, DotsOf(x, y)), RamAt(v, ops, t, w.page, AttributeOf(x, y));
  }

  // A cell drawn with them is what the ULA shows
  lemma FreshIsUla(w: Video, v: Video, ops: seq<L.Timed>, t: int, x: nat, y: nat, i: nat)
    requires v.Valid() && Sampled(w, v, ops, t) && IsPaper(x, y) && i < 8
    ensures Plotted(Fresh(w, x, y), i) == PaperAt(v, ops, t, x, y, i)
  {
    BytesSampled(w, v, ops, t, x, y);
    FreshDot(w, x, y, i);
  }

  lemma FreshDot(w: Video, x: nat, y: nat, i: nat)
    requires w.Valid() && IsPaper(x, y) && i < 8
    ensures var lit, attr := Set(w.Data(x, y), i), w.Attr(x, y);
            Plotted(Fresh(w, x, y), i)
            == if w.ulaplus then 16 + w.palette[EntryOf(lit, attr)] as nat else Dot(lit, attr, w.flash)
  {
    EntryIsDrawn(w, w.Attr(x, y), Set(w.Data(x, y), i));
    if !w.ulaplus { DotIsDrawn(Fresh(w, x, y), w.Attr(x, y), w.flash, i); }
  }

  // ---------------------------------------------------------------- the border

  // The colour of the border at T-state t, when it shows what the port, and with ULA+ the palette,
  // were given two T-states before
  function BorderAt(v: Video, colour: nat, ops: seq<L.Timed>, outs: seq<B.Event>, t: int): nat
    requires v.Valid()
  {
    ColourOf(v, ops, PortAt(colour, outs, t - 1), t - 1)
  }

  // What colour number c means then
  function ColourOf(v: Video, ops: seq<L.Timed>, c: nat, t: int): nat
    requires v.Valid()
  {
    if ModeAt(v.ulaplus, ops, t) then 16 + EntryAt(v.palette[8 + c % 8], ops, t, 8 + c % 8) else c
  }

  // Outputs of colours, none of them later than now
  predicate OutsBy(outs: seq<B.Event>, now: nat) {
    var n := |outs| - 1;
    outs != [] ==> outs[n].t <= now && outs[n].colour < 8 && OutsBy(outs[..n], now)
  }

  predicate OpsBy(ops: seq<L.Timed>, now: nat) {
    var n := |ops| - 1;
    ops != [] ==> ops[n].t <= now && L.OpValid(ops[n].op) && OpsBy(ops[..n], now)
  }

  // What the port was given last
  function LastOut(colour: nat, outs: seq<B.Event>): nat {
    if outs == [] then colour else outs[|outs| - 1].colour
  }

  // The seen colours are those of the border at any T-state, and v and c are the inputs by now
  ghost predicate Tells(v0: Video, colour: nat, ops: seq<L.Timed>, outs: seq<B.Event>, seen: seq<B.Event>, now: nat)
    requires v0.Valid()
  {
    && OpsBy(ops, now) && OutsBy(outs, now) && colour < 8
    && var base := B.CurrentColour(v0, colour);
       forall t: nat {:trigger B.ColourAt(base, seen, t)} ::
         B.ColourAt(base, seen, t) == BorderAt(v0, colour, ops, outs, t)
  }

  // When all that was done is past, the inputs hold what was done last
  lemma {:induction false} AllSampled(v: Video, ops: seq<L.Timed>, now: nat, t: int)
    requires v.Valid() && L.OpsValid(ops) && OpsBy(ops, now) && now < t
    ensures Sampled(L.ApplyAll(v, ops), v, ops, t)
  {
    if ops != [] {
      var n := |ops| - 1;
      AllSampled(v, ops[..n], now, t);
      L.ApplyAllAppend(v, ops, n);
      assert ops[..n + 1] == ops;
      SampledOnce(L.ApplyAll(v, ops[..n]), v, ops, t);
    }
  }

  lemma {:induction false} ByLater(ops: seq<L.Timed>, outs: seq<B.Event>, now: nat, later: nat)
    requires OpsBy(ops, now) && OutsBy(outs, now) && now <= later
    ensures OpsBy(ops, later) && OutsBy(outs, later)
    decreases |ops| + |outs|
  {
    if ops != [] {
      ByLater(ops[..|ops| - 1], outs, now, later);
    } else if outs != [] {
      ByLater(ops, outs[..|outs| - 1], now, later);
    }
  }

  // When all that was done is long past, the colour is the one current by now
  lemma CurrentIsShown(v0: Video, colour: nat, ops: seq<L.Timed>, outs: seq<B.Event>, now: nat, t: nat)
    requires v0.Valid() && L.OpsValid(ops) && OpsBy(ops, now) && OutsBy(outs, now) && colour < 8 && now + 2 <= t
    ensures LastOut(colour, outs) < 8
    ensures BorderAt(v0, colour, ops, outs, t) == B.CurrentColour(L.ApplyAll(v0, ops), LastOut(colour, outs))
  {
    PortLongPast(colour, outs, now, t - 1);
    EntryShown(v0, ops, LastOut(colour, outs), now, t - 1);
  }

  lemma PortLongPast(colour: nat, outs: seq<B.Event>, now: nat, t: int)
    requires OutsBy(outs, now) && colour < 8 && now < t
    ensures PortAt(colour, outs, t) == LastOut(colour, outs) < 8
  {
  }

  lemma EntryShown(v0: Video, ops: seq<L.Timed>, c: nat, now: nat, t: int)
    requires v0.Valid() && L.OpsValid(ops) && OpsBy(ops, now) && c < 8 && now < t
    ensures ColourOf(v0, ops, c, t) == B.CurrentColour(L.ApplyAll(v0, ops), c)
  {
    AllSampled(v0, ops, now, t);
    var _ := L.ApplyAll(v0, ops).palette[8 + c];
  }

  lemma OpNotYet(ops: seq<L.Timed>, x: L.Timed, t: int, on: bool, b: byte, entry: nat)
    requires t <= x.t
    ensures ModeAt(on, ops + [x], t) == ModeAt(on, ops, t)
    ensures EntryAt(b, ops + [x], t, entry) == EntryAt(b, ops, t, entry)
  {
    assert (ops + [x])[..|ops|] == ops;
  }

  lemma OutNotYet(outs: seq<B.Event>, x: B.Event, t: int, colour: nat)
    requires t <= x.t
    ensures PortAt(colour, outs + [x], t) == PortAt(colour, outs, t)
  {
    assert (outs + [x])[..|outs|] == outs;
  }

  lemma SeenMore(base: nat, seen: seq<B.Event>, e: B.Event, t: nat)
    ensures B.ColourAt(base, seen + [e], t) == if e.t + 2 <= t then e.colour else B.ColourAt(base, seen, t)
  {
    assert (seen + [e])[..|seen|] == seen;
  }

  lemma OutsOn(outs: seq<B.Event>, x: B.Event)
    requires OutsBy(outs, x.t) && x.colour < 8
    ensures OutsBy(outs + [x], x.t) && LastOut(0, outs + [x]) == x.colour
  {
    assert (outs + [x])[..|outs|] == outs;
  }

  // An operation at this moment, and the colour then current, go on telling the border
  lemma TellsOp(v0: Video, colour: nat, ops: seq<L.Timed>, outs: seq<B.Event>, seen: seq<B.Event>, x: L.Timed,
                ops': seq<L.Timed>, e: B.Event, seen': seq<B.Event>)
    requires v0.Valid() && Tells(v0, colour, ops, outs, seen, x.t) && L.OpsValid(ops) && L.OpValid(x.op)
    requires ops' == ops + [x] && seen' == seen + [e] && LastOut(colour, outs) < 8
    requires e == B.Event(x.t, B.CurrentColour(L.ApplyAll(v0, ops'), LastOut(colour, outs)))
    ensures Tells(v0, colour, ops', outs, seen', x.t)
  {
    assert ops'[..|ops|] == ops;
    var base := B.CurrentColour(v0, colour);
    forall t: nat ensures B.ColourAt(base, seen', t) == BorderAt(v0, colour, ops', outs, t) {
      SeenMore(base, seen, e, t);
      if x.t + 2 <= t {
        CurrentIsShown(v0, colour, ops', outs, x.t, t);
      } else {
        var c := PortAt(colour, outs, t - 1);
        OpNotYet(ops, x, t - 1, v0.ulaplus, v0.palette[8 + c % 8], 8 + c % 8);
      }
    }
  }

  // And so do an output and the colour then current
  lemma TellsOut(v0: Video, colour: nat, ops: seq<L.Timed>, outs: seq<B.Event>, seen: seq<B.Event>, x: B.Event,
                 outs': seq<B.Event>, e: B.Event, seen': seq<B.Event>)
    requires v0.Valid() && Tells(v0, colour, ops, outs, seen, x.t) && L.OpsValid(ops) && x.colour < 8
    requires outs' == outs + [x] && seen' == seen + [e]
    requires e == B.Event(x.t, B.CurrentColour(L.ApplyAll(v0, ops), x.colour))
    ensures Tells(v0, colour, ops, outs', seen', x.t)
  {
    OutsOn(outs, x);
    var base := B.CurrentColour(v0, colour);
    forall t: nat ensures B.ColourAt(base, seen', t) == BorderAt(v0, colour, ops, outs', t) {
      SeenMore(base, seen, e, t);
      if x.t + 2 <= t {
        CurrentIsShown(v0, colour, ops, outs', x.t, t);
      } else {
        OutNotYet(outs, x, t - 1, colour);
      }
    }
  }

  lemma TellsNothing(v0: Video, colour: nat, now: nat)
    requires v0.Valid() && colour < 8
    ensures Tells(v0, colour, [], [], [], now)
  {
    assert B.ColourAt(B.CurrentColour(v0, colour), [], 0) == B.CurrentColour(v0, colour);
  }

  // ---------------------------------------------------------------- the window

  // Dot (px, py) of the window
  function WindowDot(shown: seq<Cell>, px: nat, py: nat): nat
    requires |shown| == 9600 && px < 320 && py < 240
  {
    Plotted(shown[px / 8 + 40 * py], px % 8)
  }

  // Which dots belong to the paper
  predicate InPaper(px: int, py: int) { 32 <= px < 288 && 24 <= py < 216 }

  // The window shows the paper as the ULA does when the beam has just left each column
  ghost predicate ShowsPaper(shown: seq<Cell>, tm: Timing, v: Video, ops: seq<L.Timed>)
    requires |shown| == 9600 && tm.Valid() && v.Valid() && L.OpsValid(ops)
  {
    forall px: nat, py: nat {:trigger WindowDot(shown, px, py)} :: InPaper(px, py) ==>
      var x, y := px / 8 - 4, py - 24;
      PageAt(v.page, ops, Moment(tm, x, y)) < 65
      && WindowDot(shown, px, py) == PaperAt(v, ops, Moment(tm, x, y), x, y, px % 8)
  }

  // And the border as it does when the beam comes to each dot, at two dots a T-state
  ghost predicate ShowsBorder(shown: seq<Cell>, tm: Timing, v: Video, colour: nat, ops: seq<L.Timed>,
                              outs: seq<B.Event>)
    requires |shown| == 9600 && tm.Valid() && v.Valid()
  {
    forall px: nat, py: nat {:trigger WindowDot(shown, px, py)} :: px < 320 && py < 240 && !InPaper(px, py) ==>
      WindowDot(shown, px, py) == BorderDot(tm, v, colour, ops, outs, px, py)
  }

  // The colours of dot px, py of the border as the beam meets it
  function BorderDot(tm: Timing, v: Video, colour: nat, ops: seq<L.Timed>, outs: seq<B.Event>, px: nat, py: nat): nat
    requires tm.Valid() && v.Valid() && py < 240
  {
    BorderAt(v, colour, ops, outs, tm.lineTimes[py] + px / 2)
  }

  // Eight of them in a row
  function Eight(tm: Timing, v: Video, colour: nat, ops: seq<L.Timed>, outs: seq<B.Event>, x: nat, y: nat)
    : (px: seq<nat>)
    requires tm.Valid() && v.Valid() && y < 240
    ensures |px| == 8
  {
    seq<nat>(8, i requires 0 <= i < 8 => BorderDot(tm, v, colour, ops, outs, 8 * x + i, y))
  }

  // The first k dots have one colour and the others another
  ghost predicate Splits(px: seq<nat>, left: nat, right: nat, k: nat) {
    forall i :: 0 <= i < |px| ==> px[i] == if i < k then left else right
  }

  ghost predicate IsSplit(px: seq<nat>) { exists left: nat, right: nat, k: nat :: Splits(px, left, right, k) }

  // No column of the border needs more than two colours, one after the other
  ghost predicate TwoColours(tm: Timing, v: Video, colour: nat, ops: seq<L.Timed>, outs: seq<B.Event>)
    requires tm.Valid() && v.Valid()
  {
    forall x: nat, y: nat {:trigger Eight(tm, v, colour, ops, outs, x, y)} ::
      x < 40 && y < 240 && !InPaper(8 * x, y) ==> IsSplit(Eight(tm, v, colour, ops, outs, x, y))
  }

  lemma PlottedIs(cell: Cell, i: nat)
    requires i < 8
    ensures Plotted(cell, i) == CellPixel(cell, i)
  {
    SetIsBit(cell.data, i);
  }

  // A window that shows every cell with the inputs in force as the beam passed it shows the paper
  lemma PaperIsShown(shown: seq<Cell>, tm: Timing, v: Video, ops: seq<L.Timed>)
    requires |shown| == 9600 && tm.Valid() && tm.perLine >= 144 && v.Valid() && L.RunValid(ops)
    requires F.PaperAsSeen(shown, tm, v, ops)
    ensures ShowsPaper(shown, tm, v, ops)
  {
    forall px: nat, py: nat | InPaper(px, py)
      ensures var x, y := px / 8 - 4, py - 24;
              PageAt(v.page, ops, Moment(tm, x, y)) < 65
              && WindowDot(shown, px, py) == PaperAt(v, ops, Moment(tm, x, y), x, y, px % 8)
    {
      PaperDotIsShown(shown, tm, v, ops, px / 8 - 4, py - 24, px % 8);
      assert px / 8 + 40 * py == Index(px / 8 - 4 + 4, py - 24 + 24);
    }
  }

  lemma PaperDotIsShown(shown: seq<Cell>, tm: Timing, v: Video, ops: seq<L.Timed>, x: nat, y: nat, i: nat)
    requires |shown| == 9600 && tm.Valid() && tm.perLine >= 144 && v.Valid() && L.RunValid(ops)
    requires F.PaperAsSeen(shown, tm, v, ops) && IsPaper(x, y) && i < 8
    ensures PageAt(v.page, ops, Moment(tm, x, y)) < 65
    ensures Plotted(shown[Index(x + 4, y + 24)], i) == PaperAt(v, ops, Moment(tm, x, y), x, y, i)
  {
    InputsSampled(tm, v, ops, x, y);
    FreshIsUla(L.InputsAt(tm, v, ops, Pos(x, y)), v, ops, Moment(tm, x, y), x, y, i);
  }

  lemma DotInForce(tm: Timing, v: Video, colour: nat, ops: seq<L.Timed>, outs: seq<B.Event>, seen: seq<B.Event>,
                   now: nat, px: nat, py: nat)
    requires tm.Valid() && v.Valid() && Tells(v, colour, ops, outs, seen, now) && py < 240
    ensures B.ColourInForce(tm, B.CurrentColour(v, colour), seen, py, px) == BorderDot(tm, v, colour, ops, outs, px, py)
  {
  }

  lemma BorderIsShown(shown: seq<Cell>, tm: Timing, v: Video, colour: nat, ops: seq<L.Timed>, outs: seq<B.Event>,
                      seen: seq<B.Event>, now: nat)
    requires |shown| == 9600 && tm.Valid() && v.Valid() && Tells(v, colour, ops, outs, seen, now)
    ensures F.BorderAsSeen(shown, tm, B.CurrentColour(v, colour), seen) <==>
              ShowsBorder(shown, tm, v, colour, ops, outs)
  {
    var base := B.CurrentColour(v, colour);
    if F.BorderAsSeen(shown, tm, base, seen) {
      forall px: nat, py: nat | px < 320 && py < 240 && !InPaper(px, py)
        ensures WindowDot(shown, px, py) == BorderDot(tm, v, colour, ops, outs, px, py)
      {
        DotInForce(tm, v, colour, ops, outs, seen, now, px, py);
        PlottedIs(shown[Index(px / 8, py)], px % 8);
        assert B.IsBorder(px / 8, py) && 8 * (px / 8) + px % 8 == px;
      }
    }
    if ShowsBorder(shown, tm, v, colour, ops, outs) {
      forall x, y, i | B.IsBorder(x, y) && 0 <= i < 8
        ensures CellPixel(shown[Index(x, y)], i) == B.ColourInForce(tm, base, seen, y, 8 * x + i)
      {
        DotInForce(tm, v, colour, ops, outs, seen, now, 8 * x + i, y);
        PlottedIs(shown[Index(x, y)], i);
        assert (8 * x + i) / 8 == x && (8 * x + i) % 8 == i && !InPaper(8 * x + i, y);
        assert WindowDot(shown, 8 * x + i, y) == BorderDot(tm, v, colour, ops, outs, 8 * x + i, y);
      }
    }
  }

  lemma TwoColoursAreEnough(tm: Timing, v: Video, colour: nat, ops: seq<L.Timed>, outs: seq<B.Event>,
                            seen: seq<B.Event>, now: nat)
    requires tm.Valid() && v.Valid() && Tells(v, colour, ops, outs, seen, now)
    ensures B.OneChangeACell(tm, B.CurrentColour(v, colour), seen) <==> TwoColours(tm, v, colour, ops, outs)
  {
    var base := B.CurrentColour(v, colour);
    forall x, y | OnScreen(x, y)
      ensures B.AtMostOneTransition(B.BeamPixels(tm, base, seen, x, y)) <==>
                IsSplit(Eight(tm, v, colour, ops, outs, x, y))
    {
      EightInForce(tm, v, colour, ops, outs, seen, now, x, y);
      SplitsOnce(Eight(tm, v, colour, ops, outs, x, y));
    }
    if B.OneChangeACell(tm, base, seen) {
      forall x: nat, y: nat | x < 40 && y < 240 && !InPaper(8 * x, y)
        ensures IsSplit(Eight(tm, v, colour, ops, outs, x, y))
      {
        assert B.IsBorder(x, y);
      }
    }
    if TwoColours(tm, v, colour, ops, outs) {
      forall x, y | B.IsBorder(x, y) ensures B.AtMostOneTransition(B.BeamPixels(tm, base, seen, x, y)) {
        assert !InPaper(8 * x, y) && IsSplit(Eight(tm, v, colour, ops, outs, x, y));
      }
    }
  }

  lemma EightInForce(tm: Timing, v: Video, colour: nat, ops: seq<L.Timed>, outs: seq<B.Event>, seen: seq<B.Event>,
                     now: nat, x: nat, y: nat)
    requires tm.Valid() && v.Valid() && Tells(v, colour, ops, outs, seen, now) && OnScreen(x, y)
    ensures B.BeamPixels(tm, B.CurrentColour(v, colour), seen, x, y) == Eight(tm, v, colour, ops, outs, x, y)
  {
    forall i: nat | i < 8
      ensures B.BeamPixels(tm, B.CurrentColour(v, colour), seen, x, y)[i] == Eight(tm, v, colour, ops, outs, x, y)[i]
    {
      DotInForce(tm, v, colour, ops, outs, seen, now, 8 * x + i, y);
    }
  }

  lemma SplitsOnce(px: seq<nat>)
    requires |px| == 8
    ensures B.AtMostOneTransition(px) <==> IsSplit(px)
  {
    var t := B.Transition(px, 1);
    if B.AtMostOneTransition(px) {
      assert Splits(px, px[0], if t == 8 then 0 else px[t], t);
    }
    if left: nat, right: nat, k: nat :| Splits(px, left, right, k) {
      forall i | t <= i < 8 ensures px[i] == px[t] {}
    }
  }
}
