/** display_border.c: the border, painted once a frame from a list of timed colour changes. */
module Border {
  import opened Bits
  import opened Video
  import opened Canvas
  import opened Beam

  const LINE_PIXELS: nat := 320
  const LINE_TSTATES: nat := 160

  // A change of colour visible from T-state t of line y on
  datatype Change = Change(t: nat, y: nat, colour: nat)
  {
    predicate Valid() { t <= LINE_TSTATES && y < SCREEN_HEIGHT && IsBorderColour(colour) }

    // The first pixel it colours, counting along the lines
    function Start(): nat { LINE_PIXELS * y + 2 * t }

    predicate Before(that: Change) { y < that.y || (y == that.y && t <= that.t) }
  }

  // A write that changed the border colour at T-state t
  datatype Event = Event(t: nat, colour: nat)

  predicate IsBorderColour(c: nat) { c < 8 || ULAPLUS_BASE <= c < ULAPLUS_BASE + 256 }

  // current_border_colour, for the border colour last written to the ULA
  function CurrentColour(v: Video, border: nat): (c: nat)
    requires v.Valid() && border < 8
    ensures IsBorderColour(c)
  {
    if v.ulaplus then ULAPLUS_BASE + v.Colour(8 + border % 8) else border
  }

  predicate IsBorder(x: int, y: int) {
    OnScreen(x, y) && !IsPaper(x - BORDER_WIDTH_COLS, y - BORDER_HEIGHT)
  }

  // ---------------------------------------------------------------- what the border shows

  // A list with one more item at its end. A proof looks into it only where it names the list.
  ghost predicate Longer<T(!new)>(s: seq<T>, x: T, s': seq<T>) {
    forall e {:trigger s + [e]} :: e == x ==> s' == s + [e]
  }

  // Writes of legal colours in order of time
  predicate InOrder(events: seq<Event>) {
    var n := |events| - 1;
    events != [] ==>
      IsBorderColour(events[n].colour) && InOrder(events[..n]) && (n > 0 ==> events[n - 1].t <= events[n].t)
  }

  // The colour that a write shows two T-states after it is made, as of T-state now
  function ColourAt(base: nat, events: seq<Event>, now: nat): nat {
    if events == [] then base
    else if events[|events| - 1].t + 2 <= now then events[|events| - 1].colour
    else ColourAt(base, events[..|events| - 1], now)
  }

  // The colour after all of them
  function LastOf(base: nat, events: seq<Event>): nat {
    if events == [] then base else events[|events| - 1].colour
  }

  // Two lists of writes show the same colour at any time
  ghost predicate SameColours(base: nat, events: seq<Event>, base': nat, events': seq<Event>) {
    forall now: nat {:trigger ColourAt(base, events, now)} {:trigger ColourAt(base', events', now)} ::
      ColourAt(base, events, now) == ColourAt(base', events', now)
  }

  // A write of the colour there is already may be left out
  lemma SameColourAgain(base: nat, events: seq<Event>, e: Event)
    requires events != [] ==> events[|events| - 1].t <= e.t
    requires e.colour == LastOf(base, events)
    ensures SameColours(base, events + [e], base, events)
  {
    assert (events + [e])[..|events|] == events;
  }

  // Any other write shows in both lists
  lemma SameColoursAppend(base: nat, events: seq<Event>, base': nat, events': seq<Event>, e: Event)
    requires SameColours(base, events, base', events')
    ensures SameColours(base, events + [e], base', events' + [e])
  {
    assert (events + [e])[..|events|] == events && (events' + [e])[..|events'|] == events';
  }

  // The writes that change the colour
  function Changes(base: nat, events: seq<Event>): (changes: seq<Event>)
    ensures LastOf(base, changes) == LastOf(base, events)
  {
    if events == [] then []
    else
      var n := |events| - 1;
      if events[n].colour == LastOf(base, events[..n]) then Changes(base, events[..n])
      else Changes(base, events[..n]) + [events[n]]
  }

  // They show all there is to see
  lemma {:induction false} ChangesShow(base: nat, events: seq<Event>)
    requires InOrder(events)
    ensures SameColours(base, events, base, Changes(base, events))
  {
    if events != [] {
      var n := |events| - 1;
      var front, e := events[..n], events[n];
      assert events == front + [e];
      ChangesShow(base, front);
      if e.colour == LastOf(base, front) {
        SameColourAgain(base, front, e);
        forall now: nat ensures ColourAt(base, events, now) == ColourAt(base, Changes(base, events), now) {
          var _ := ColourAt(base, front, now);
        }
      } else {
        SameColoursAppend(base, front, base, Changes(base, front), e);
      }
    }
  }

  // The changes recorded stand for all the colours asked for, of which last is the last
  ghost predicate Filters(base: nat, requests: seq<Event>, events: seq<Event>, last: nat) {
    && InOrder(requests) && last == LastOf(base, requests) == LastOf(base, events)
    && SameColours(base, requests, base, events)
    && (events != [] ==> requests != [] && events[|events| - 1].t <= requests[|requests| - 1].t)
  }

  lemma FilterKept(base: nat, requests: seq<Event>, events: seq<Event>, last: nat, e: Event)
    requires Filters(base, requests, events, last) && IsBorderColour(e.colour)
    requires requests != [] ==> requests[|requests| - 1].t <= e.t
    ensures Filters(base, requests + [e], if e.colour == last then events else events + [e], e.colour)
  {
    if e.colour == last {
      SameColourAgain(base, requests, e);
      assert forall now: nat :: ColourAt(base, requests + [e], now) == ColourAt(base, requests, now);
    } else {
      SameColoursAppend(base, requests, base, events, e);
    }
  }

  // The colour in force when the beam draws pixel p of line y, two pixels a T-state
  function ColourInForce(tm: Timing, base: nat, events: seq<Event>, y: nat, p: nat): nat
    requires tm.Valid() && y < SCREEN_HEIGHT
  {
    ColourAt(base, events, tm.lineTimes[y] + p / 2)
  }

  // The colour of the last change that starts at or before a pixel
  function LastColour(changes: seq<Change>, pos: nat): nat {
    if changes == [] then 0
    else if changes[|changes| - 1].Start() <= pos then changes[|changes| - 1].colour
    else LastColour(changes[..|changes| - 1], pos)
  }

  ghost predicate Sorted(changes: seq<Change>) {
    forall i, j :: 0 <= i < j < |changes| ==> changes[i].Before(changes[j])
  }

  // Where push_border_change puts a change, if the frame still shows it
  function Place(tm: Timing, e: Event): (c: seq<Change>)
    requires tm.Valid() && IsBorderColour(e.colour)
    ensures |c| <= 1 && (c != [] ==> c[0].Valid() && c[0].colour == e.colour)
  {
    var t := e.t + 2;
    if t < tm.lineTimes[0] then [Change(0, 0, e.colour)]
    else
      var y := (t - tm.lineTimes[0]) / tm.perLine;
      DivBounds(t - tm.lineTimes[0], tm.perLine);
      if y >= SCREEN_HEIGHT then []
      else [Change(if t - tm.lineTimes[y] > LINE_TSTATES then LINE_TSTATES else t - tm.lineTimes[y], y, e.colour)]
  }

  // The list that the events of a frame leave behind
  function Record(tm: Timing, base: nat, events: seq<Event>): (cs: seq<Change>)
    requires tm.Valid() && IsBorderColour(base) && InOrder(events)
    ensures cs != [] && cs[0] == Change(0, 0, base) && forall i :: 0 <= i < |cs| ==> cs[i].Valid()
  {
    if events == [] then [Change(0, 0, base)]
    else Record(tm, base, events[..|events| - 1]) + Place(tm, events[|events| - 1])
  }

  lemma RecordAppend(tm: Timing, base: nat, events: seq<Event>, e: Event)
    requires tm.Valid() && IsBorderColour(base) && InOrder(events) && IsBorderColour(e.colour)
    requires events != [] ==> events[|events| - 1].t <= e.t
    ensures InOrder(events + [e])
    ensures Record(tm, base, events + [e]) == Record(tm, base, events) + Place(tm, e)
  {
    assert (events + [e])[..|events|] == events;
  }

  // A recorded change starts at the first pixel drawn once it is visible
  lemma PlaceIsWhenVisible(tm: Timing, e: Event, y: nat, p: nat)
    requires tm.Valid() && tm.perLine >= LINE_TSTATES && IsBorderColour(e.colour)
    requires y < SCREEN_HEIGHT && p < LINE_PIXELS
    ensures var c := Place(tm, e);
            e.t + 2 <= tm.lineTimes[y] + p / 2 <==> (c != [] && c[0].Start() <= LINE_PIXELS * y + p)
  {
    var t := e.t + 2;
    if t >= tm.lineTimes[0] {
      var n := t - tm.lineTimes[0];
      var q := n / tm.perLine;
      DivBounds(n, tm.perLine);
      if q < y {
        MulMono(q + 1, y, tm.perLine);
      } else if q > y {
        MulMono(y + 1, q, tm.perLine);
        assert (y + 1) * tm.perLine == y * tm.perLine + tm.perLine;
      }
    } else {
      assert 0 <= y * tm.perLine by { MulMono(0, y, tm.perLine); }
    }
  }

  lemma LastColourAppend(cs: seq<Change>, c: Change, pos: nat)
    ensures LastColour(cs + [c], pos) == if c.Start() <= pos then c.colour else LastColour(cs, pos)
  {
    assert (cs + [c])[..|cs|] == cs;
  }

  // The recorded list stands for the colours in force
  lemma {:induction false} RecordIsFaithful(tm: Timing, base: nat, events: seq<Event>, y: nat, p: nat)
    requires tm.Valid() && tm.perLine >= LINE_TSTATES && IsBorderColour(base) && InOrder(events)
    requires y < SCREEN_HEIGHT && p < LINE_PIXELS
    ensures LastColour(Record(tm, base, events), LINE_PIXELS * y + p) == ColourInForce(tm, base, events, y, p)
  {
    if events != [] {
      var front, e := events[..|events| - 1], events[|events| - 1];
      RecordIsFaithful(tm, base, front, y, p);
      PlaceIsWhenVisible(tm, e, y, p);
      if Place(tm, e) != [] {
        LastColourAppend(Record(tm, base, front), Place(tm, e)[0], LINE_PIXELS * y + p);
      } else {
        assert Record(tm, base, events) == Record(tm, base, front);
      }
    }
  }

  lemma PlaceMonotone(tm: Timing, e: Event, f: Event)
    requires tm.Valid() && tm.perLine >= LINE_TSTATES && IsBorderColour(e.colour) && IsBorderColour(f.colour)
    requires e.t <= f.t
    ensures Place(tm, e) == [] ==> Place(tm, f) == []
    ensures Place(tm, f) != [] ==> Place(tm, e)[0].Before(Place(tm, f)[0])
  {
    if e.t + 2 >= tm.lineTimes[0] {
      var n, m := e.t + 2 - tm.lineTimes[0], f.t + 2 - tm.lineTimes[0];
      DivBounds(n, tm.perLine);
      DivBounds(m, tm.perLine);
      QuotientsOrdered(n / tm.perLine, m / tm.perLine, tm.perLine, n, m);
    }
  }

  // Events in order of time are recorded in order of position
  lemma {:induction false} RecordIsSorted(tm: Timing, base: nat, events: seq<Event>)
    requires tm.Valid() && tm.perLine >= LINE_TSTATES && IsBorderColour(base) && InOrder(events)
    ensures Sorted(Record(tm, base, events))
    ensures events != [] && Place(tm, events[|events| - 1]) != [] ==>
              forall i :: 0 <= i < |Record(tm, base, events)| ==>
                Record(tm, base, events)[i].Before(Place(tm, events[|events| - 1])[0])
  {
    if events != [] {
      var front, e := events[..|events| - 1], events[|events| - 1];
      RecordIsSorted(tm, base, front);
      if Place(tm, e) != [] && front != [] {
        PlaceMonotone(tm, front[|front| - 1], e);
      }
    }
  }

  // ---------------------------------------------------------------- cells

  // The first pixel of eight that differs from the first, or 8
  function Transition(px: seq<nat>, p: nat): (r: nat)
    requires |px| == 8 && 1 <= p <= 8
    requires forall i :: 0 <= i < p ==> px[i] == px[0]
    ensures p <= r <= 8 && (forall i :: 0 <= i < r ==> px[i] == px[0]) && (r < 8 ==> px[r] != px[0])
    decreases 8 - p
  {
    if p == 8 || px[p] != px[0] then p else Transition(px, p + 1)
  }

  // The cell that flush_border_line makes of eight pixels
  function Pack(px: seq<nat>): Cell
    requires |px| == 8
  {
    var t := Transition(px, 1);
    if t == 8 then Cell(0, if px[0] >= ULAPLUS_BASE then px[0] else 0, px[0])
    else Cell(Ones(8 - t), px[t], px[0])
  }

  predicate AtMostOneTransition(px: seq<nat>)
    requires |px| == 8
  {
    var t := Transition(px, 1);
    forall i :: t <= i < 8 ==> px[i] == px[t]
  }

  // A packed cell shows its pixels exactly when there is no second transition among them
  lemma PackIsExact(px: seq<nat>)
    requires |px| == 8
    ensures AtMostOneTransition(px) <==> forall i :: 0 <= i < 8 ==> CellPixel(Pack(px), i) == px[i]
  {
    var t := Transition(px, 1);
    forall i | 0 <= i < 8 ensures CellPixel(Pack(px), i) == if i < t then px[0] else px[t] {
      if t == 8 { ZeroBits(7 - i); } else { OnesBit(8 - t, 7 - i); }
    }
    if forall i :: 0 <= i < 8 ==> CellPixel(Pack(px), i) == px[i] {
      forall i | t <= i < 8 ensures px[i] == px[t] {
        assert CellPixel(Pack(px), i) == px[i];
      }
    }
  }

  // The record and colours words of a packed cell
  function PackWord(px: seq<nat>): nat
    requires |px| == 8
  {
    var t := Transition(px, 1);
    if t == 8 then (if px[0] >= ULAPLUS_BASE then ULAPLUS_MARK else px[0] * 2048)
    else if px[0] >= ULAPLUS_BASE || px[t] >= ULAPLUS_BASE then ULAPLUS_MARK + Ones(8 - t)
    else (px[0] * 8 + px[t]) * 256 + Ones(8 - t)
  }

  function PackColours(px: seq<nat>): nat
    requires |px| == 8
  {
    Pack(px).ink * 0x10000 + px[0]
  }

  lemma OnesSmall(n: nat)
    requires n <= 8
    ensures Ones(n) < 256
  {
    assert Ones(8) == 255;
    if n < 8 { OnesBelow(n, 8); }
  }

  lemma {:induction false} OnesBelow(n: nat, m: nat)
    requires n <= m
    ensures Ones(n) <= Ones(m)
  {
    if n > 0 { OnesBelow(n - 1, m - 1); }
  }

  lemma StandardRecord(left: nat, right: nat, data: nat)
    requires left < 8 && right < 8 && data < 256
    ensures var w := (left * 8 + right) * 256 + data;
            Render(w, 0) == Cell(data, right, left) && w != INVALID && !WordUlaplus(w) && WordAttr(w) < 128
  {
    PackedWord(0, left * 8 + right, data);
  }

  lemma UlaplusRecord(ink: nat, paper: nat, data: nat)
    requires paper < 0x10000 && data < 256
    ensures Render(ULAPLUS_MARK + data, ink * 0x10000 + paper) == Cell(data, ink, paper)
    ensures ULAPLUS_MARK + data != INVALID && WordUlaplus(ULAPLUS_MARK + data)
  {
    PackedWord(2, 0, data);
  }

  // The record of a border cell stands for the cell, whatever the flash phase
  lemma PackRecord(px: seq<nat>)
    requires |px| == 8 && forall i :: 0 <= i < 8 ==> IsBorderColour(px[i])
    ensures Render(PackWord(px), PackColours(px)) == Pack(px)
    ensures Plain(PackWord(px), px)
  {
    var t := Transition(px, 1);
    if t < 8 { OnesSmall(8 - t); }
    if px[0] >= ULAPLUS_BASE || Pack(px).ink >= ULAPLUS_BASE {
      UlaplusRecord(Pack(px).ink, px[0], Pack(px).data);
    } else {
      StandardRecord(px[0], Pack(px).ink, Pack(px).data);
    }
  }

  // ---------------------------------------------------------------- the picture of a list

  // Cell x of line y as a sorted list of changes colours it
  function CellPixels(cs: seq<Change>, x: nat, y: nat): (px: seq<nat>)
    ensures |px| == 8
  {
    seq<nat>(8, i requires 0 <= i < 8 => LastColour(cs, LINE_PIXELS * y + 8 * x + i))
  }

  lemma {:induction false} LastColourLegal(cs: seq<Change>, pos: nat)
    requires forall i :: 0 <= i < |cs| ==> cs[i].Valid()
    ensures IsBorderColour(LastColour(cs, pos))
  {
    if cs != [] { LastColourLegal(cs[..|cs| - 1], pos); }
  }

  // Between two changes of a sorted list the colour is that of the first
  lemma {:induction false} Segment(cs: seq<Change>, i: nat, pos: nat)
    requires Sorted(cs) && (forall k :: 0 <= k < |cs| ==> cs[k].Valid()) && i < |cs| && cs[i].Start() <= pos
    requires (i + 1 < |cs| ==> pos < cs[i + 1].Start())
    ensures LastColour(cs, pos) == cs[i].colour
  {
    if i + 1 < |cs| {
      Segment(cs[..|cs| - 1], i, pos);
    }
  }

  // The record of a cell in these colours: marked if one of them is a ULA+ colour, and otherwise
  // no more than an attribute that does not flash and a byte
  predicate Plain(word: nat, px: seq<nat>)
    requires |px| == 8
  {
    && word != INVALID && (WordUlaplus(word) <==> px[0] >= ULAPLUS_BASE || Pack(px).ink >= ULAPLUS_BASE)
    && (WordUlaplus(word) || (WordAttr(word) < 128 && word < 0x10000))
  }

  // A drawn border cell: it shows the pixels, and reads back whatever the flash phase
  ghost predicate Painted(c: CanvasState, x: nat, y: nat, px: seq<nat>)
    requires c.Valid() && OnScreen(x, y) && |px| == 8
  {
    var word := c.last[Index(x, y)];
    c.plotted[Index(x, y)] == Pack(px) && Plain(word, px)
  }

  // Only border cells were drawn, and those that changed were marked
  ghost predicate BorderOnly(c: CanvasState, d: CanvasState)
    requires c.Valid()
  {
    && d.Valid() && d.Recorded() && Grown(c, d)
    && (forall i, j {:trigger d.SameCell(c, i, j)} :: OnScreen(i, j) && !IsBorder(i, j) ==> d.SameCell(c, i, j))
  }

  // Lines before y are painted as the list says, and the paper is as it was
  ghost predicate PaintedTo(c: CanvasState, d: CanvasState, cs: seq<Change>, y: nat)
    requires c.Valid()
  {
    && d.Valid() && d.Recorded() && Grown(c, d)
    && (forall i, j {:trigger IsBorder(i, j)} ::
          0 <= j < y && IsBorder(i, j) ==> Painted(d, i, j, CellPixels(cs, i, j)))
    && (forall i, j {:trigger d.SameCell(c, i, j)} :: OnScreen(i, j) && !IsBorder(i, j) ==> d.SameCell(c, i, j))
  }

  // The border cells of line y before column x are painted with the pixels in buf
  ghost predicate LinePainted(c: CanvasState, d: CanvasState, buf: seq<nat>, y: nat, x: nat)
    requires c.Valid() && |buf| >= LINE_PIXELS && x <= SCREEN_WIDTH_COLS
  {
    && d.Valid() && d.Recorded() && Grown(c, d)
    && (forall i {:trigger IsBorder(i, y)} :: 0 <= i < x && IsBorder(i, y) ==> Painted(d, i, y, buf[8 * i..8 * i + 8]))
    && (forall i, j {:trigger d.SameCell(c, i, j)} ::
          OnScreen(i, j) && !(j == y && i < x && IsBorder(i, j)) ==> d.SameCell(c, i, j))
  }

  function DrawCell(c: CanvasState, x: nat, y: nat, px: seq<nat>): CanvasState
    requires c.Valid() && OnScreen(x, y) && |px| == 8
  {
    Put(c, x, y, PackWord(px), PackColours(px), Pack(px))
  }

  lemma LineStarts(c: CanvasState, buf: seq<nat>, y: nat)
    requires c.Valid() && c.Recorded() && |buf| >= LINE_PIXELS
    ensures LinePainted(c, c, buf, y, 0)
  {
    forall i, j | OnScreen(i, j) ensures c.SameCell(c, i, j) {}
  }

  lemma LineSteps(c: CanvasState, d: CanvasState, e: CanvasState, buf: seq<nat>, y: nat, x: nat)
    requires c.Valid() && |buf| >= LINE_PIXELS && OnScreen(x, y) && LinePainted(c, d, buf, y, x)
    requires forall i :: 0 <= i < LINE_PIXELS ==> IsBorderColour(buf[i])
    requires if IsBorder(x, y) then e == DrawCell(d, x, y, buf[8 * x..8 * x + 8]) else e == d
    ensures LinePainted(c, e, buf, y, x + 1)
  {
    if IsBorder(x, y) {
      var px := buf[8 * x..8 * x + 8];
      PackRecord(px);
      PutShows(d, x, y, PackWord(px), PackColours(px), Pack(px));
      assert Grown(d, e) by {
        forall i, j | OnScreen(i, j)
          ensures (d.DirtyAt(i, j) ==> e.DirtyAt(i, j))
          ensures (e.plotted[Index(i, j)] == d.plotted[Index(i, j)] || e.DirtyAt(i, j))
        {
          if i != x || j != y { assert e.SameCell(d, i, j); }
        }
      }
      GrownTwice(c, d, e);
      forall i | 0 <= i < x + 1 && IsBorder(i, y) ensures Painted(e, i, y, buf[8 * i..8 * i + 8]) {
        LineStepCell(c, d, e, buf, y, x, i);
      }
      forall i, j | OnScreen(i, j) && !(j == y && i < x + 1 && IsBorder(i, j)) ensures e.SameCell(c, i, j) {
        assert e.SameCell(d, i, j) && d.SameCell(c, i, j);
      }
    }
  }

  lemma LineStepCell(c: CanvasState, d: CanvasState, e: CanvasState, buf: seq<nat>, y: nat, x: nat, i: nat)
    requires c.Valid() && |buf| >= LINE_PIXELS && IsBorder(x, y) && LinePainted(c, d, buf, y, x)
    requires forall i :: 0 <= i < LINE_PIXELS ==> IsBorderColour(buf[i])
    requires e == DrawCell(d, x, y, buf[8 * x..8 * x + 8]) && i <= x && IsBorder(i, y)
    ensures e.Valid() && Painted(e, i, y, buf[8 * i..8 * i + 8])
  {
    var px := buf[8 * x..8 * x + 8];
    PackRecord(px);
    PutShows(d, x, y, PackWord(px), PackColours(px), Pack(px));
    if i < x { assert e.SameCell(d, i, y); }
  }

  // A painted line carries the picture one line on
  lemma LineEnds(c: CanvasState, d: CanvasState, e: CanvasState, cs: seq<Change>, buf: seq<nat>, y: nat)
    requires c.Valid() && |buf| >= LINE_PIXELS && y < SCREEN_HEIGHT
    requires PaintedTo(c, d, cs, y) && LinePainted(d, e, buf, y, SCREEN_WIDTH_COLS)
    requires forall p :: 0 <= p < LINE_PIXELS ==> buf[p] == LastColour(cs, LINE_PIXELS * y + p)
    ensures PaintedTo(c, e, cs, y + 1)
  {
    GrownTwice(c, d, e);
    forall i, j | IsBorder(i, j) && j < y + 1 ensures Painted(e, i, j, CellPixels(cs, i, j)) {
      if j == y {
        assert buf[8 * i..8 * i + 8] == CellPixels(cs, i, j);
      } else {
        assert e.SameCell(d, i, j) && Painted(d, i, j, CellPixels(cs, i, j));
      }
    }
    forall i, j | OnScreen(i, j) && !IsBorder(i, j) ensures e.SameCell(c, i, j) {
      assert e.SameCell(d, i, j) && d.SameCell(c, i, j);
    }
  }

  // A standard cell ignores the colours word, so that of the last ULA+ cell may stay
  lemma StandardCell(px: seq<nat>)
    requires |px| == 8 && forall i :: 0 <= i < 8 ==> IsBorderColour(px[i])
    requires px[0] < ULAPLUS_BASE && Pack(px).ink < ULAPLUS_BASE
    ensures Render(PackWord(px), 0) == Pack(px) && !WordUlaplus(PackWord(px))
  {
    var t := Transition(px, 1);
    if t < 8 { OnesSmall(8 - t); }
    StandardRecord(px[0], Pack(px).ink, Pack(px).data);
  }

  lemma {:induction false} TransitionFrom(px: seq<nat>, q: nat, p: nat)
    requires |px| == 8 && 1 <= q <= p <= 8 && forall i :: 0 <= i < p ==> px[i] == px[0]
    requires p == 8 || px[p] != px[0]
    ensures Transition(px, q) == p
    decreases p - q
  {
    if q < p { TransitionFrom(px, q + 1, p); }
  }

  lemma TransitionAt(px: seq<nat>, p: nat)
    requires |px| == 8 && 1 <= p < 8 && (forall i :: 0 <= i < p ==> px[i] == px[0]) && px[p] != px[0]
    ensures Transition(px, 1) == p
  {
    TransitionFrom(px, 1, p);
  }

  lemma TransitionNone(px: seq<nat>)
    requires |px| == 8 && forall i :: 0 <= i < 8 ==> px[i] == px[0]
    ensures Transition(px, 1) == 8
  {
    TransitionFrom(px, 1, 8);
  }

  // ---------------------------------------------------------------- the border as seen

  // What the beam sees of the border: every pixel in the colour then in force
  ghost predicate ShowsBorder(tm: Timing, base: nat, events: seq<Event>, c: CanvasState)
    requires tm.Valid() && c.Valid()
  {
    forall x, y, i {:trigger CellPixel(c.plotted[Index(x, y)], i)} :: IsBorder(x, y) && 0 <= i < 8 ==>
      CellPixel(c.plotted[Index(x, y)], i) == ColourInForce(tm, base, events, y, 8 * x + i)
  }

  // Lists that show the same colours show the same border
  lemma SameBorder(tm: Timing, base: nat, events: seq<Event>, base': nat, events': seq<Event>, c: CanvasState)
    requires tm.Valid() && c.Valid() && SameColours(base, events, base', events')
    ensures ShowsBorder(tm, base, events, c) <==> ShowsBorder(tm, base', events', c)
    ensures OneChangeACell(tm, base, events) <==> OneChangeACell(tm, base', events')
  {
    forall x, y | IsBorder(x, y)
      ensures BeamPixels(tm, base, events, x, y) == BeamPixels(tm, base', events', x, y)
    {
      SamePixels(tm, base, events, base', events', x, y);
    }
  }

  // Changes are far enough apart that no cell sees two of them
  ghost predicate Spaced(events: seq<Event>) {
    forall i, j :: 0 <= i < j < |events| ==> events[i].t + 4 <= events[j].t
  }

  // Once a colour has changed it stays for four T-states
  lemma {:induction false} Stays(base: nat, events: seq<Event>, now: nat, i: nat, j: nat, k: nat)
    requires Spaced(events) && i <= j <= k <= 3
    ensures ColourAt(base, events, now + i) == ColourAt(base, events, now + j)
         || ColourAt(base, events, now + j) == ColourAt(base, events, now + k)
  {
    if events != [] {
      var front, e := events[..|events| - 1], events[|events| - 1];
      if e.t + 2 > now + 3 {
        Stays(base, front, now, i, j, k);
      } else if e.t + 2 > now {
        Settled(base, front, now, i);
        Settled(base, front, now, j);
      }
    }
  }

  lemma {:induction false} Settled(base: nat, events: seq<Event>, now: nat, i: nat)
    requires forall k :: 0 <= k < |events| ==> events[k].t + 2 <= now
    ensures ColourAt(base, events, now + i) == ColourAt(base, events, now)
  {
  }

  // The colours that the beam meets in cell x of line y
  function BeamPixels(tm: Timing, base: nat, events: seq<Event>, x: nat, y: nat): (px: seq<nat>)
    requires tm.Valid() && OnScreen(x, y)
    ensures |px| == 8
  {
    seq<nat>(8, i requires 0 <= i < 8 => ColourInForce(tm, base, events, y, 8 * x + i))
  }

  // No cell of the border needs more than two colours, one after the other
  ghost predicate OneChangeACell(tm: Timing, base: nat, events: seq<Event>)
    requires tm.Valid()
  {
    forall x, y {:trigger IsBorder(x, y)} :: IsBorder(x, y) ==> AtMostOneTransition(BeamPixels(tm, base, events, x, y))
  }

  // The picture that the sweep leaves is the one the beam sees exactly when two colours a
  // cell are enough
  lemma SweepIsExactly(tm: Timing, base: nat, events: seq<Event>, c: CanvasState, d: CanvasState)
    requires tm.Valid() && tm.perLine >= LINE_TSTATES && IsBorderColour(base) && InOrder(events)
    requires c.Valid() && PaintedTo(c, d, Record(tm, base, events), SCREEN_HEIGHT)
    ensures ShowsBorder(tm, base, events, d) <==> OneChangeACell(tm, base, events)
  {
    forall x, y | IsBorder(x, y)
      ensures AtMostOneTransition(BeamPixels(tm, base, events, x, y)) <==>
                forall i :: 0 <= i < 8 ==>
                  CellPixel(d.plotted[Index(x, y)], i) == ColourInForce(tm, base, events, y, 8 * x + i)
    {
      assert Painted(d, x, y, CellPixels(Record(tm, base, events), x, y));
      BeamCell(tm, base, events, x, y);
    }
  }

  lemma BorderIsExactly(tm: Timing, base: nat, events: seq<Event>, requests: seq<Event>, c: CanvasState, d: CanvasState)
    requires tm.Valid() && tm.perLine >= LINE_TSTATES && IsBorderColour(base) && InOrder(events)
    requires SameColours(base, requests, base, events)
    requires c.Valid() && PaintedTo(c, d, Record(tm, base, events), SCREEN_HEIGHT)
    ensures BorderOnly(c, d)
    ensures ShowsBorder(tm, base, requests, d) <==> OneChangeACell(tm, base, requests)
  {
    SweepIsExactly(tm, base, events, c, d);
    SameBorder(tm, base, requests, base, events, d);
  }

  // Where they are enough, display_getpixel reads the colours back, in either flash phase
  lemma SweepReadsBack(tm: Timing, base: nat, events: seq<Event>, c: CanvasState, d: CanvasState, flash: bool, x: nat,
                       y: nat, i: nat)
    requires tm.Valid() && tm.perLine >= LINE_TSTATES && IsBorderColour(base) && InOrder(events)
    requires c.Valid() && PaintedTo(c, d, Record(tm, base, events), SCREEN_HEIGHT)
    requires IsBorder(x, y) && i < 8 && AtMostOneTransition(BeamPixels(tm, base, events, x, y))
    ensures GetPixel(d, flash, 8 * x + i, y) == ColourInForce(tm, base, events, y, 8 * x + i)
  {
    PaintedCell(c, d, Record(tm, base, events), x, y);
    RecordedCell(tm, base, events, x, y);
    CellReadsBack(tm, base, events, d, flash, x, y, i);
  }

  lemma PaintedCell(c: CanvasState, d: CanvasState, cs: seq<Change>, x: nat, y: nat)
    requires c.Valid() && PaintedTo(c, d, cs, SCREEN_HEIGHT) && IsBorder(x, y)
    ensures d.Valid() && d.Recorded() && Painted(d, x, y, CellPixels(cs, x, y))
  {
  }

  lemma CellReadsBack(tm: Timing, base: nat, events: seq<Event>, d: CanvasState, flash: bool, x: nat, y: nat, i: nat)
    requires tm.Valid() && OnScreen(x, y) && i < 8 && d.Valid() && d.Recorded()
    requires Painted(d, x, y, BeamPixels(tm, base, events, x, y))
    requires AtMostOneTransition(BeamPixels(tm, base, events, x, y))
    ensures GetPixel(d, flash, 8 * x + i, y) == ColourInForce(tm, base, events, y, 8 * x + i)
  {
    var px := BeamPixels(tm, base, events, x, y);
    PackedBeam(px, tm, base, events, x, y);
    PaintedReadsBack(d, x, y, px, flash, i);
  }

  lemma PaintedReadsBack(d: CanvasState, x: nat, y: nat, px: seq<nat>, flash: bool, i: nat)
    requires d.Valid() && d.Recorded() && OnScreen(x, y) && |px| == 8 && Painted(d, x, y, px) && i < 8
    ensures GetPixel(d, flash, 8 * x + i, y) == CellPixel(Pack(px), i)
  {
    assert (8 * x + i) / 8 == x && (8 * x + i) % 8 == i;
    GetPixelReadsPlotted(d, flash, 8 * x + i, y);
  }

  lemma BeamCell(tm: Timing, base: nat, events: seq<Event>, x: nat, y: nat)
    requires tm.Valid() && tm.perLine >= LINE_TSTATES && IsBorderColour(base) && InOrder(events) && OnScreen(x, y)
    ensures var px := BeamPixels(tm, base, events, x, y);
            && CellPixels(Record(tm, base, events), x, y) == px
            && (AtMostOneTransition(px) <==>
                forall i :: 0 <= i < 8 ==> CellPixel(Pack(px), i) == ColourInForce(tm, base, events, y, 8 * x + i))
  {
    RecordedCell(tm, base, events, x, y);
    PackedBeam(BeamPixels(tm, base, events, x, y), tm, base, events, x, y);
  }

  lemma PackedBeam(px: seq<nat>, tm: Timing, base: nat, events: seq<Event>, x: nat, y: nat)
    requires tm.Valid() && OnScreen(x, y) && px == BeamPixels(tm, base, events, x, y)
    ensures AtMostOneTransition(px) <==>
              forall i :: 0 <= i < 8 ==> CellPixel(Pack(px), i) == ColourInForce(tm, base, events, y, 8 * x + i)
  {
    PackIsExact(px);
    assert forall i :: 0 <= i < 8 ==> px[i] == ColourInForce(tm, base, events, y, 8 * x + i);
  }

  lemma BeamPixel(tm: Timing, base: nat, events: seq<Event>, x: nat, y: nat, i: nat)
    requires tm.Valid() && OnScreen(x, y) && i < 8
    ensures BeamPixels(tm, base, events, x, y)[i] == ColourAt(base, events, tm.lineTimes[y] + 4 * x + i / 2)
  {
    assert (8 * x + i) / 2 == 4 * x + i / 2;
  }

  lemma SamePixels(tm: Timing, base: nat, events: seq<Event>, base': nat, events': seq<Event>, x: nat, y: nat)
    requires tm.Valid() && OnScreen(x, y) && SameColours(base, events, base', events')
    ensures BeamPixels(tm, base, events, x, y) == BeamPixels(tm, base', events', x, y)
  {
    forall i | 0 <= i < 8
      ensures BeamPixels(tm, base, events, x, y)[i] == BeamPixels(tm, base', events', x, y)[i]
    {
      BeamPixel(tm, base, events, x, y, i);
      BeamPixel(tm, base', events', x, y, i);
    }
  }

  lemma RecordedCell(tm: Timing, base: nat, events: seq<Event>, x: nat, y: nat)
    requires tm.Valid() && tm.perLine >= LINE_TSTATES && IsBorderColour(base) && InOrder(events) && OnScreen(x, y)
    ensures CellPixels(Record(tm, base, events), x, y) == BeamPixels(tm, base, events, x, y)
  {
    forall i | 0 <= i < 8
      ensures CellPixels(Record(tm, base, events), x, y)[i] == BeamPixels(tm, base, events, x, y)[i]
    {
      RecordedPixel(tm, base, events, x, y, i);
    }
  }

  // They are when the changes of colour keep their distance
  lemma SpacedChanges(tm: Timing, base: nat, events: seq<Event>)
    requires tm.Valid() && InOrder(events) && Spaced(Changes(base, events))
    ensures OneChangeACell(tm, base, events)
  {
    ChangesShow(base, events);
    forall x, y | IsBorder(x, y) ensures AtMostOneTransition(BeamPixels(tm, base, events, x, y)) {
      SamePixels(tm, base, events, base, Changes(base, events), x, y);
      SpacedCell(tm, base, Changes(base, events), x, y);
    }
  }

  lemma SpacedCell(tm: Timing, base: nat, events: seq<Event>, x: nat, y: nat)
    requires tm.Valid() && Spaced(events) && OnScreen(x, y)
    ensures AtMostOneTransition(BeamPixels(tm, base, events, x, y))
  {
    var px := BeamPixels(tm, base, events, x, y);
    var t := Transition(px, 1);
    forall k | t <= k < 8 ensures px[k] == px[t] {
      BeamPixel(tm, base, events, x, y, 0);
      BeamPixel(tm, base, events, x, y, t);
      BeamPixel(tm, base, events, x, y, k);
      Stays(base, events, tm.lineTimes[y] + 4 * x, 0, t / 2, k / 2);
    }
  }

  lemma SpacedBorderIsExact(tm: Timing, base: nat, events: seq<Event>, c: CanvasState, d: CanvasState)
    requires tm.Valid() && tm.perLine >= LINE_TSTATES && IsBorderColour(base) && InOrder(events)
    requires Spaced(Changes(base, events))
    requires c.Valid() && PaintedTo(c, d, Record(tm, base, events), SCREEN_HEIGHT)
    ensures ShowsBorder(tm, base, events, d)
  {
    SpacedChanges(tm, base, events);
    SweepIsExactly(tm, base, events, c, d);
  }

  lemma RecordedPixel(tm: Timing, base: nat, events: seq<Event>, x: nat, y: nat, i: nat)
    requires tm.Valid() && tm.perLine >= LINE_TSTATES && IsBorderColour(base) && InOrder(events)
    requires OnScreen(x, y) && i < 8
    ensures CellPixels(Record(tm, base, events), x, y)[i] == ColourInForce(tm, base, events, y, 8 * x + i)
    ensures CellPixels(Record(tm, base, events), x, y)[i] == ColourAt(base, events, tm.lineTimes[y] + 4 * x + i / 2)
  {
    RecordIsFaithful(tm, base, events, y, 8 * x + i);
    assert (8 * x + i) / 2 == 4 * x + i / 2;
  }

  // They are not when two changes follow each other within a T-state of the first cell
  lemma CrowdedBorderIsWrong(tm: Timing, c: CanvasState, d: CanvasState)
    requires tm.Valid() && tm.perLine >= LINE_TSTATES && tm.lineTimes[0] >= 1
    requires var events := [Event(tm.lineTimes[0] - 1, 1), Event(tm.lineTimes[0], 2)];
             InOrder(events) && c.Valid() && PaintedTo(c, d, Record(tm, 0, events), SCREEN_HEIGHT)
    ensures !ShowsBorder(tm, 0, [Event(tm.lineTimes[0] - 1, 1), Event(tm.lineTimes[0], 2)], d)
  {
    var first, second := Event(tm.lineTimes[0] - 1, 1), Event(tm.lineTimes[0], 2);
    var events := [first, second];
    var px := BeamPixels(tm, 0, events, 0, 0);
    BeamPixel(tm, 0, events, 0, 0, 0);
    BeamPixel(tm, 0, events, 0, 0, 1);
    BeamPixel(tm, 0, events, 0, 0, 2);
    BeamPixel(tm, 0, events, 0, 0, 4);
    assert events[..1] == [first] && [first][..0] == [];
    assert ColourAt(0, [], tm.lineTimes[0]) == 0;
    assert ColourAt(0, [first], tm.lineTimes[0]) == 0 && ColourAt(0, [first], tm.lineTimes[0] + 1) == 1;
    assert px[0] == 0 && px[1] == 0 && px[2] == 1 && px[4] == 2;
    TransitionAt(px, 2);
    assert IsBorder(0, 0) && !AtMostOneTransition(px);
    SweepIsExactly(tm, 0, events, c, d);
  }

  // ---------------------------------------------------------------- columns of 16 pixels

  // A Timex has two pixels where other machines have one
  function Wide(timex: bool, n: nat): nat { if timex then 2 * n else n }

  function Narrow(timex: bool, p: nat): nat { if timex then p / 2 else p }

  // What the search for a transition in these pixels finds, -1 if there is none
  ghost predicate Found(px: seq<nat>, timex: bool, right: nat, transition: int)
    requires |px| == 8
  {
    var t := Transition(px, 1);
    if t == 8 then transition == -1 && right == px[0] else transition == Wide(timex, t) && right == px[t]
  }

  // The first pixel that differs is the first of its two
  lemma FirstAt(px: seq<nat>, timex: bool, p: nat)
    requires |px| == 8 && 1 <= p < Wide(timex, 8)
    requires (forall i :: 0 <= i < p ==> px[Narrow(timex, i)] == px[0]) && px[Narrow(timex, p)] != px[0]
    ensures Transition(px, 1) == Narrow(timex, p) < 8 && p == Wide(timex, Narrow(timex, p))
  {
    var q := Narrow(timex, p);
    assert Narrow(timex, p - 1) != q;
    forall i | 0 <= i < q ensures px[i] == px[0] { assert Narrow(timex, Wide(timex, i)) == i; }
    TransitionAt(px, q);
  }

  lemma WideTimes(timex: bool, n: nat, t: nat)
    ensures t * Wide(timex, n) == Wide(timex, n * t)
  {
    assert t * n == n * t;
    if timex { assert t * (2 * n) == 2 * (t * n); }
  }

  lemma NoneOf(px: seq<nat>, timex: bool)
    requires |px| == 8 && forall i :: 0 <= i < Wide(timex, 8) ==> px[Narrow(timex, i)] == px[0]
    ensures Transition(px, 1) == 8
  {
    forall i | 0 <= i < 8 ensures px[i] == px[0] { assert Narrow(timex, Wide(timex, i)) == i; }
    TransitionNone(px);
  }

  // The Timex branch of display_getpixel, for a cell that was not drawn in the hires mode
  function GetTimexPixel(c: CanvasState, flash: bool, px: nat, py: nat): nat
    requires |c.last| == SCREEN_CELLS && px < 640 && py < 480 && c.last[Index(px / 16, py / 2)] < 0x10000
  {
    var word := c.last[Index(px / 16, py / 2)];
    if Bit(WordData(word), 7 - px / 2 % 8) then AttrInk(WordAttr(word), flash) else AttrPaper(WordAttr(word), flash)
  }

  // It finds every pixel twice, in each of two lines
  lemma PixelsDoubled(d: CanvasState, flash: bool, x: nat, y: nat, i: nat, row: nat)
    requires d.Valid() && OnScreen(x, y) && i < 16 && row < 2
    requires d.last[Index(x, y)] < 0x10000 && !WordUlaplus(d.last[Index(x, y)])
    ensures var px, py := 16 * x + i, 2 * y + row;
            px / 16 == x && py / 2 == y && GetTimexPixel(d, flash, px, py) == GetPixel(d, flash, 8 * x + i / 2, y)
  {
    assert (16 * x + i) / 2 % 8 == i / 2 && (8 * x + i / 2) / 8 == x && (8 * x + i / 2) % 8 == i / 2;
  }

  ghost predicate Standard(base: nat, events: seq<Event>) {
    base < 8 && forall k :: 0 <= k < |events| ==> events[k].colour < 8
  }

  // On a Timex, whose paper is drawn by a function that ignores ULA+, that reads back the colours
  // that the beam drew at four pixels a T-state
  lemma SweepReadsBackWide(tm: Timing, base: nat, events: seq<Event>, c: CanvasState, d: CanvasState, flash: bool,
                           x: nat, y: nat, i: nat, row: nat)
    requires tm.Valid() && tm.perLine >= LINE_TSTATES && IsBorderColour(base) && InOrder(events)
    requires c.Valid() && PaintedTo(c, d, Record(tm, base, events), SCREEN_HEIGHT)
    requires IsBorder(x, y) && i < 16 && row < 2 && AtMostOneTransition(BeamPixels(tm, base, events, x, y))
    requires Standard(base, events)
    ensures var px, py := 16 * x + i, 2 * y + row;
            && px / 16 == x && py / 2 == y && d.Valid() && d.last[Index(x, y)] < 0x10000
            && GetTimexPixel(d, flash, px, py) == ColourAt(base, events, tm.lineTimes[y] + 4 * x + i / 4)
  {
    StandardBorder(tm, base, events, c, d, x, y);
    PixelsDoubled(d, flash, x, y, i, row);
    SweepReadsBack(tm, base, events, c, d, flash, x, y, i / 2);
    QuarterOf(tm, base, events, x, y, i);
  }

  lemma QuarterOf(tm: Timing, base: nat, events: seq<Event>, x: nat, y: nat, i: nat)
    requires tm.Valid() && y < SCREEN_HEIGHT
    ensures ColourInForce(tm, base, events, y, 8 * x + i / 2) == ColourAt(base, events, tm.lineTimes[y] + 4 * x + i / 4)
  {
    assert (8 * x + i / 2) / 2 == 4 * x + i / 4;
  }

  lemma StandardBorder(tm: Timing, base: nat, events: seq<Event>, c: CanvasState, d: CanvasState, x: nat, y: nat)
    requires tm.Valid() && tm.perLine >= LINE_TSTATES && IsBorderColour(base) && InOrder(events)
    requires c.Valid() && PaintedTo(c, d, Record(tm, base, events), SCREEN_HEIGHT) && IsBorder(x, y)
    requires Standard(base, events)
    ensures d.Valid() && d.last[Index(x, y)] < 0x10000 && !WordUlaplus(d.last[Index(x, y)])
  {
    PaintedCell(c, d, Record(tm, base, events), x, y);
    RecordedCell(tm, base, events, x, y);
    StandardPixels(tm, base, events, x, y);
    StandardPack(BeamPixels(tm, base, events, x, y));
  }

  lemma StandardPixels(tm: Timing, base: nat, events: seq<Event>, x: nat, y: nat)
    requires tm.Valid() && OnScreen(x, y)
    requires Standard(base, events)
    ensures var px := BeamPixels(tm, base, events, x, y); forall k :: 0 <= k < 8 ==> px[k] < 8
  {
    forall k | 0 <= k < 8 ensures BeamPixels(tm, base, events, x, y)[k] < 8 {
      BeamPixel(tm, base, events, x, y, k);
      StandardAt(base, events, tm.lineTimes[y] + 4 * x + k / 2);
    }
  }

  lemma StandardPack(px: seq<nat>)
    requires |px| == 8 && forall k :: 0 <= k < 8 ==> px[k] < 8
    ensures px[0] < ULAPLUS_BASE && Pack(px).ink < ULAPLUS_BASE
  {
    var t := Transition(px, 1);
    if t < 8 { assert px[t] < 8; }
  }

  lemma {:induction false} StandardAt(base: nat, events: seq<Event>, now: nat)
    requires Standard(base, events)
    ensures ColourAt(base, events, now) < 8
  {
    if events != [] { StandardAt(base, events[..|events| - 1], now); }
  }

  // ---------------------------------------------------------------- the border itself

  class BorderDisplay {
    const buffers: Buffers
    const timing: Timing
    const timex: bool                // two pixels for every one
    const pixels: array<nat>         // border_pixel_buf
    var changes: seq<Change>         // border_changes
    var lastBorder: nat              // display_last_border

    ghost var base: nat              // the colour that this frame started with
    ghost var events: seq<Event>     // the changes recorded since
    ghost var requests: seq<Event>   // every colour handed to check_border_change since

    ghost const Repr: set<object> := {this, pixels} + buffers.Repr

    ghost predicate Distinct() {
      && pixels !in buffers.Repr && this !in buffers.Repr && pixels.Length == 640
      && timing.Valid() && timing.perLine >= LINE_TSTATES
    }

    ghost predicate Valid()
      reads this, pixels, buffers.Repr
    {
      && Distinct() && buffers.Valid()
      && Listed() && Filters(base, requests, events, lastBorder)
    }

    // border_changes holds the changes recorded
    ghost predicate Listed()
      requires timing.Valid()
      reads this`base, this`events, this`changes
    {
      IsBorderColour(base) && InOrder(events) && changes == Record(timing, base, events)
    }

    // display_border_init, the border being in the given colour
    constructor (buffers: Buffers, timing: Timing, timex: bool, colour: nat)
      requires buffers.Valid() && timing.Valid() && timing.perLine >= LINE_TSTATES && IsBorderColour(colour)
      ensures Valid() && base == colour && events == requests == [] && lastBorder == colour
      ensures this.buffers == buffers && this.timing == timing && this.timex == timex && fresh(Repr - buffers.Repr)
    {
      this.buffers, this.timing, this.timex := buffers, timing, timex;
      pixels := new nat[640];
      changes, lastBorder := [Change(0, 0, colour)], colour;
      base, events, requests := colour, [], [];
    }

    // The arithmetic of push_border_change
    method Locate(tstates: nat, colour: nat) returns (change: seq<Change>)
      requires timing.Valid() && timing.perLine >= LINE_TSTATES && IsBorderColour(colour)
      ensures change == Place(timing, Event(tstates, colour))
    {
      var at := tstates + 2;
      if at < timing.lineTimes[0] { return [Change(0, 0, colour)]; }
      DivBounds(at - timing.lineTimes[0], timing.perLine);
      var y := (at - timing.lineTimes[0]) / timing.perLine;
      if y >= SCREEN_HEIGHT { return []; }
      var t := at - timing.lineTimes[y];
      if t > LINE_TSTATES { t := LINE_TSTATES; }
      return [Change(t, y, colour)];
    }

    // push_border_change
    method PushChange(tstates: nat, colour: nat)
      requires Distinct() && IsBorderColour(base) && InOrder(events) && IsBorderColour(colour)
      requires changes == Record(timing, base, events)
      requires events != [] ==> events[|events| - 1].t <= tstates
      modifies this`changes, this`events
      ensures events == old(events) + [Event(tstates, colour)] && InOrder(events)
      ensures changes == Record(timing, base, events)
    {
      RecordAppend(timing, base, events, Event(tstates, colour));
      var change := Locate(tstates, colour);
      changes := changes + change;
      events := events + [Event(tstates, colour)];
    }

    // check_border_change, the border being in the given colour now
    method CheckChange(tstates: nat, colour: nat)
      requires Valid() && IsBorderColour(colour)
      requires requests != [] ==> requests[|requests| - 1].t <= tstates
      modifies this`changes, this`events, this`requests, this`lastBorder
      ensures Valid() && lastBorder == colour && Longer(old(requests), Event(tstates, colour), requests)
      ensures events == if colour == old(lastBorder) then old(events) else old(events) + [Event(tstates, colour)]
    {
      if colour != lastBorder {
        ChangeTo(tstates, colour);
      } else {
        FilterKept(base, requests, events, lastBorder, Event(tstates, colour));
        requests := requests + [Event(tstates, colour)];
      }
    }

    // The branch of check_border_change for another colour
    method ChangeTo(tstates: nat, colour: nat)
      requires Valid() && IsBorderColour(colour) && colour != lastBorder
      requires requests != [] ==> requests[|requests| - 1].t <= tstates
      modifies this`changes, this`events, this`requests, this`lastBorder
      ensures Valid() && lastBorder == colour && Longer(old(requests), Event(tstates, colour), requests)
      ensures events == old(events) + [Event(tstates, colour)]
    {
      FilterKept(base, requests, events, lastBorder, Event(tstates, colour));
      PushChange(tstates, colour);
      lastBorder := colour;
      requests := requests + [Event(tstates, colour)];
    }

    // The buffer holds these pixels, each of them twice on a Timex
    ghost predicate Holds(line: seq<nat>)
      requires pixels.Length == 640 && |line| <= LINE_PIXELS
      reads pixels
    {
      forall p :: 0 <= p < Wide(timex, |line|) ==> pixels[p] == line[Narrow(timex, p)]
    }

    // Find the transition in column x of the buffer, which holds the pixels px
    method ScanCell(x: nat, ghost px: seq<nat>) returns (left: nat, right: nat, transition: int)
      requires pixels.Length == 640 && x < SCREEN_WIDTH_COLS && |px| == 8
      requires forall i :: 0 <= i < Wide(timex, 8) ==> pixels[Wide(timex, 8 * x) + i] == px[Narrow(timex, i)]
      ensures left == px[0] && Found(px, timex, right, transition)
    {
      var start, end := Wide(timex, 8 * x), Wide(timex, 8);
      assert Narrow(timex, 0) == 0;
      left := pixels[start + 0];
      right := left;
      transition := -1;
      var p := 1;
      while p < end
        invariant 1 <= p <= end
        invariant transition == -1 ==> right == left && forall i :: 0 <= i < p ==> px[Narrow(timex, i)] == left
        invariant transition != -1 ==> transition >= 0 && Found(px, timex, right, transition)
      {
        if pixels[start + p] != right {
          if transition >= 0 { break; }
          FirstAt(px, timex, p);
          transition := p;
          right := pixels[start + p];
        }
        p := p + 1;
      }
      if transition == -1 { NoneOf(px, timex); }
    }

    // The bits of the pixels from the transition on
    method TransitionBits(transition: nat, ghost px: seq<nat>, ghost right: nat) returns (data: nat)
      requires |px| == 8 && Found(px, timex, right, transition)
      ensures data == Ones(8 - Transition(px, 1)) && data < 256
    {
      var bit := Narrow(timex, transition);
      OnesIsShl(8 - bit);
      OnesSmall(8 - bit);
      data := Shl(1, 8 - bit) - 1;
    }

    // flush_ulaplus_border_cell
    method DrawUlaplusCell(x: nat, y: nat, left: nat, right: nat, transition: int, ghost px: seq<nat>)
      requires buffers.Valid() && OnScreen(x, y) && |px| == 8 && forall i :: 0 <= i < 8 ==> IsBorderColour(px[i])
      requires left == px[0] && Found(px, timex, right, transition)
      requires left >= ULAPLUS_BASE || right >= ULAPLUS_BASE
      modifies buffers.Repr
      ensures buffers.Valid() && buffers.Abs() == DrawCell(old(buffers.Abs()), x, y, px)
    {
      PackRecord(px);
      var data, ink := 0, left;
      if transition >= 0 {
        data := TransitionBits(transition, px, right);
        ink := right;
      }
      assert Cell(data, ink, left) == Pack(px) && ULAPLUS_MARK + data == PackWord(px);
      buffers.DrawUlaplus(x, y, ULAPLUS_MARK + data, ink * 0x10000 + left, Cell(data, ink, left));
    }

    // The drawing of a standard cell in flush_border_line
    method DrawStandardCell(x: nat, y: nat, left: nat, right: nat, transition: int, ghost px: seq<nat>)
      requires buffers.Valid() && OnScreen(x, y) && |px| == 8 && forall i :: 0 <= i < 8 ==> IsBorderColour(px[i])
      requires left == px[0] && Found(px, timex, right, transition)
      requires left < ULAPLUS_BASE && right < ULAPLUS_BASE
      modifies buffers.Repr
      ensures buffers.Valid() && buffers.Abs() == DrawCell(old(buffers.Abs()), x, y, px)
    {
      PackRecord(px);
      StandardCell(px);
      if transition < 0 {
        buffers.DrawStandard(x, y, left * 2048, Cell(0, 0, left));
      } else {
        var data := TransitionBits(transition, px, right);
        buffers.DrawStandard(x, y, (left * 8 + right) * 256 + data, Cell(data, right, left));
      }
    }

    // The body of flush_border_line for column x
    method FlushCell(x: nat, y: nat, ghost line: seq<nat>)
      requires Distinct() && buffers.Valid() && OnScreen(x, y) && |line| == LINE_PIXELS && Holds(line)
      requires forall i :: 0 <= i < LINE_PIXELS ==> IsBorderColour(line[i])
      modifies buffers.Repr
      ensures buffers.Valid() && buffers.Abs() == DrawCell(old(buffers.Abs()), x, y, line[8 * x..8 * x + 8])
    {
      ghost var px := line[8 * x..8 * x + 8];
      forall i | 0 <= i < Wide(timex, 8) ensures pixels[Wide(timex, 8 * x) + i] == px[Narrow(timex, i)] {
        assert Narrow(timex, Wide(timex, 8 * x) + i) == 8 * x + Narrow(timex, i);
      }
      var left, right, transition := ScanCell(x, px);
      if left >= ULAPLUS_BASE || right >= ULAPLUS_BASE {
        DrawUlaplusCell(x, y, left, right, transition, px);
      } else {
        DrawStandardCell(x, y, left, right, transition, px);
      }
    }

    // flush_border_line
    method FlushLine(y: nat, ghost line: seq<nat>)
      requires Distinct() && buffers.Valid() && y < SCREEN_HEIGHT && |line| == LINE_PIXELS && Holds(line)
      requires forall i :: 0 <= i < LINE_PIXELS ==> IsBorderColour(line[i])
      modifies buffers.Repr
      ensures buffers.Valid()
      ensures LinePainted(old(buffers.Abs()), buffers.Abs(), line, y, SCREEN_WIDTH_COLS)
    {
      ghost var c := buffers.Abs();
      LineStarts(c, line, y);
      var paperRow := BORDER_HEIGHT <= y < BORDER_HEIGHT + HEIGHT;
      var x := 0;
      while x < SCREEN_WIDTH_COLS
        invariant x <= SCREEN_WIDTH_COLS && buffers.Valid() && Holds(line)
        invariant LinePainted(c, buffers.Abs(), line, y, x)
      {
        ghost var d := buffers.Abs();
        if !(paperRow && BORDER_WIDTH_COLS <= x < BORDER_WIDTH_COLS + WIDTH_COLS) {
          FlushCell(x, y, line);
        }
        LineSteps(c, d, buffers.Abs(), line, y, x);
        x := x + 1;
      }
    }

    // Colour the pixels of the buffer from one to another
    method Fill(start: nat, end: nat, colour: nat)
      requires end <= 640 && pixels.Length == 640
      modifies pixels
      ensures forall p :: 0 <= p < 640 ==> pixels[p] == if start <= p < end then colour else old(pixels[p])
    {
      var p := start;
      while p < end
        invariant start <= p && (p <= end || p == start)
        invariant forall i :: 0 <= i < 640 ==> pixels[i] == if start <= i < p then colour else old(pixels[i])
      {
        pixels[p] := colour;
        p := p + 1;
      }
    }

    // The lines before y are painted, and the buffer holds line y up to a pixel
    ghost predicate Swept(c: CanvasState, cs: seq<Change>, y: nat, pix: nat)
      reads this, pixels, buffers.Repr
    {
      && Distinct() && buffers.Valid() && c.Valid() && y < SCREEN_HEIGHT && pix <= Wide(timex, LINE_PIXELS)
      && PaintedTo(c, buffers.Abs(), cs, y)
      && forall p :: 0 <= p < pix ==> pixels[p] == LastColour(cs, LINE_PIXELS * y + Narrow(timex, p))
    }

    // Finish line y in one colour and flush it
    method FinishLine(ghost c: CanvasState, ghost cs: seq<Change>, y: nat, pix: nat, colour: nat)
      requires Swept(c, cs, y, pix) && y + 1 < SCREEN_HEIGHT && forall i :: 0 <= i < |cs| ==> cs[i].Valid()
      requires forall pos ::
                LINE_PIXELS * y + Narrow(timex, pix) <= pos < LINE_PIXELS * y + LINE_PIXELS ==>
                LastColour(cs, pos) == colour
      modifies pixels, buffers.Repr
      ensures Swept(c, cs, y + 1, 0)
    {
      Fill(pix, Wide(timex, LINE_PIXELS), colour);
      Flush(c, cs, y);
    }

    // Colour line y up to another pixel
    method Extend(ghost c: CanvasState, ghost cs: seq<Change>, y: nat, pix: nat, end: nat, colour: nat)
      requires Swept(c, cs, y, pix) && pix <= end <= Wide(timex, LINE_PIXELS)
      requires forall p :: pix <= p < end ==> LastColour(cs, LINE_PIXELS * y + Narrow(timex, p)) == colour
      modifies pixels
      ensures Swept(c, cs, y, end)
    {
      Fill(pix, end, colour);
    }

    method Flush(ghost c: CanvasState, ghost cs: seq<Change>, y: nat)
      requires Swept(c, cs, y, Wide(timex, LINE_PIXELS)) && forall i :: 0 <= i < |cs| ==> cs[i].Valid()
      modifies buffers.Repr
      ensures Distinct() && buffers.Valid() && PaintedTo(c, buffers.Abs(), cs, y + 1)
    {
      ghost var line := seq<nat>(LINE_PIXELS, i requires 0 <= i < LINE_PIXELS => LastColour(cs, LINE_PIXELS * y + i));
      forall p | 0 <= p < LINE_PIXELS ensures IsBorderColour(line[p]) {
        LastColourLegal(cs, LINE_PIXELS * y + p);
      }
      ghost var d := buffers.Abs();
      FlushLine(y, line);
      LineEnds(c, d, buffers.Abs(), cs, line, y);
    }

    // Sweep from the start of change i to the start of the next one in the colour of change i
    method SweepTo(ghost c: CanvasState, ghost cs: seq<Change>, ghost i: nat, y: nat, pix: nat, target: Change,
                   colour: nat)
        returns (y': nat, pix': nat)
      requires Swept(c, cs, y, pix) && Sorted(cs) && (forall k :: 0 <= k < |cs| ==> cs[k].Valid())
      requires i < |cs| && y == cs[i].y && pix == Wide(timex, 2 * cs[i].t) && colour == cs[i].colour
      requires target.t <= LINE_TSTATES && target.y < SCREEN_HEIGHT && cs[i].Before(target)
      requires i + 1 < |cs| ==> target == cs[i + 1]
      modifies pixels, buffers.Repr
      ensures y' == target.y && pix' == Wide(timex, 2 * target.t) && Swept(c, cs, y', pix')
    {
      var targetPix := target.t * Wide(timex, 2);
      WideTimes(timex, 2, target.t);
      forall pos | cs[i].Start() <= pos < target.Start() ensures LastColour(cs, pos) == colour {
        Segment(cs, i, pos);
      }
      y', pix' := y, pix;
      while y' < target.y
        invariant y' <= target.y && Swept(c, cs, y', pix')
        invariant cs[i].Start() <= LINE_PIXELS * y' + Narrow(timex, pix')
        invariant (y' == cs[i].y && pix' == Wide(timex, 2 * cs[i].t)) || pix' == 0
        decreases SCREEN_HEIGHT - y'
      {
        FinishLine(c, cs, y', pix', colour);
        y' := y' + 1;
        pix' := 0;
      }
      if targetPix > pix' {
        Extend(c, cs, y', pix', targetPix, colour);
        pix' := targetPix;
      }
    }

    // The loop of display_border_frame over the pairs of neighbouring changes
    method SweepAll(ghost c: CanvasState, ghost cs: seq<Change>)
      requires Distinct() && buffers.Valid() && c == buffers.Abs() && cs != [] && cs[0] == Change(0, 0, cs[0].colour)
      requires Sorted(cs) && (forall k :: 0 <= k < |cs| ==> cs[k].Valid())
      requires changes == cs + [Change(LINE_TSTATES, SCREEN_HEIGHT - 1, 0)]
      modifies pixels, buffers.Repr
      ensures Swept(c, cs, SCREEN_HEIGHT - 1, Wide(timex, LINE_PIXELS))
    {
      forall i, j | OnScreen(i, j) ensures c.SameCell(c, i, j) {}
      var y, pix, i := 0, 0, 0;
      while i < |changes| - 1
        invariant 0 <= i <= |cs| && Swept(c, cs, y, pix) && y == changes[i].y
        invariant pix == Wide(timex, 2 * changes[i].t)
      {
        y, pix := SweepTo(c, cs, i, y, pix, changes[i + 1], changes[i].colour);
        i := i + 1;
      }
    }

    // display_border_frame, the border being in the given colour at the end of the frame. It
    // shows the colours asked for exactly when two of them are enough for every cell.
    method Frame(colour: nat)
      requires Valid() && colour == lastBorder && IsBorderColour(colour)
      modifies this`changes, this`base, this`events, this`requests, pixels, buffers.Repr
      ensures Valid() && base == colour && events == requests == []
      ensures BorderOnly(old(buffers.Abs()), buffers.Abs())
      ensures ShowsBorder(timing, old(base), old(requests), buffers.Abs())
              <==> OneChangeACell(timing, old(base), old(requests))
    {
      ghost var c, from, recorded, asked := buffers.Abs(), base, events, requests;
      Paint(colour);
      BorderIsExactly(timing, from, recorded, asked, c, buffers.Abs());
    }

    // What it does in terms of the changes recorded
    method Paint(colour: nat)
      requires Valid() && colour == lastBorder && IsBorderColour(colour)
      modifies this`changes, this`base, this`events, this`requests, pixels, buffers.Repr
      ensures Valid() && base == colour && events == requests == []
      ensures PaintedTo(old(buffers.Abs()), buffers.Abs(), Record(timing, old(base), old(events)), SCREEN_HEIGHT)
    {
      ghost var c, cs := buffers.Abs(), changes;
      RecordIsSorted(timing, base, events);
      changes := changes + [Change(LINE_TSTATES, SCREEN_HEIGHT - 1, 0)];
      SweepAll(c, cs);
      Flush(c, cs, SCREEN_HEIGHT - 1);
      changes := [Change(0, 0, colour)];
      base, events, requests := colour, [], [];
    }
  }
}
