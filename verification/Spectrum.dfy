/** The display of a machine at work: what programs and devices do to it from frame to frame. */
module Spectrum {
  import opened Bits
  import opened Video
  import opened Canvas
  import opened Beam
  import L = Lazy
  import P = Paper
  import B = Border
  import S = Present
  import F = Frame
  import U = Ula

  // A frame in progress: how it started, the operations on the paper since, the border colours put
  // out since, and the colour of the border that was current after each step
  datatype Progress = Progress(start: L.State, border: nat, ops: seq<L.Timed>, outs: seq<B.Event>, seen: seq<B.Event>)

  // The frame goes on with the output x of a border colour
  ghost predicate Showed(g: Progress, x: B.Event, e: B.Event, g': Progress) {
    && g'.start == g.start && g'.border == g.border && g'.ops == g.ops
    && B.Longer(g.outs, x, g'.outs) && B.Longer(g.seen, e, g'.seen)
  }

  // And with an operation on the paper
  ghost predicate Operated(g: Progress, x: L.Timed, e: B.Event, g': Progress) {
    Goes(g, x, g') && g'.border == g.border && g'.outs == g.outs && B.Longer(g.seen, e, g'.seen)
  }

  ghost predicate Goes(g: Progress, x: L.Timed, g': Progress) { g'.start == g.start && B.Longer(g.ops, x, g'.ops) }

  lemma ShowOne(g: Progress, x: B.Event, e: B.Event) returns (g': Progress)
    ensures Showed(g, x, e, g')
  {
    g' := g.(outs := g.outs + [x], seen := g.seen + [e]);
  }

  lemma OperateOne(g: Progress, x: L.Timed, e: B.Event) returns (g': Progress)
    ensures Operated(g, x, e, g')
  {
    g' := g.(ops := g.ops + [x], seen := g.seen + [e]);
  }

  // ---------------------------------------------------------------- the paper keeps up

  // The display has drawn no further than the beam
  predicate NotAhead(s: L.State, p: Point) { s.cy < p.y || (s.cy == p.y && s.cx <= p.x) }

  lemma NextNotAhead(s: L.State, p: Point, op: L.Op, d: L.State)
    requires s.Valid() && L.OpValid(op) && 0 <= p.x <= WIDTH_COLS && 0 <= p.y < HEIGHT
    requires L.Next(s, p, op, d) && NotAhead(s, p)
    ensures NotAhead(d, p)
  {
  }

  // The operations are in order of time, and none of them is later than now
  predicate InTime(ops: seq<L.Timed>, now: nat) {
    var n := |ops| - 1;
    ops != [] ==> ops[n].t <= now && InTime(ops[..n], ops[n].t)
  }

  lemma {:induction false} InTimeIsOrdered(ops: seq<L.Timed>, now: nat)
    requires L.OpsValid(ops) && InTime(ops, now)
    ensures L.RunValid(ops) && forall i :: 0 <= i < |ops| ==> ops[i].t <= now
  {
    if ops != [] {
      var n := |ops| - 1;
      InTimeIsOrdered(ops[..n], ops[n].t);
    }
  }

  // The paper is in state s after the operations of a frame, drawn no further than the beam
  ghost predicate PaperFollows(tm: Timing, g: Progress, s: L.State, now: nat)
    requires tm.Valid()
  {
    && L.FrameStart(g.start) && L.OpsValid(g.ops) && InTime(g.ops, now)
    && L.Leads(tm, g.start, g.ops, s) && NotAhead(s, PaperBeam(tm, now))
  }

  lemma PaperFollowsLater(tm: Timing, g: Progress, s: L.State, now: nat, later: nat)
    requires tm.Valid() && PaperFollows(tm, g, s, now) && now <= later
    ensures PaperFollows(tm, g, s, later)
  {
    BeamMonotone(tm, now, later);
  }

  // It is in state d after one more
  lemma PaperFollowsOn(tm: Timing, g: Progress, s: L.State, now: nat, op: L.Op, d: L.State, g': Progress)
    requires tm.Valid() && PaperFollows(tm, g, s, now) && L.OpValid(op) && s.Valid()
    requires L.Next(s, PaperBeam(tm, now), op, d) && NotAhead(d, PaperBeam(tm, now))
    requires Goes(g, L.Timed(now, op), g')
    ensures PaperFollows(tm, g', d, now)
  {
    assert g'.ops == g.ops + [L.Timed(now, op)] && L.Run(tm, g.start, g.ops, s);
    L.RunAppend(tm, g.start, g.ops, s, L.Timed(now, op), d);
  }

  // ---------------------------------------------------------------- the border keeps up

  // The border display is as it should be after the steps of a frame: it shows the colours
  // that were current after each of them, and the last one is still current
  ghost predicate BorderFollows(g: Progress, base: nat, requests: seq<B.Event>, last: nat, v: Video, border: nat,
                                now: nat)
  {
    && g.start.video.Valid() && g.border < 8 && base == B.CurrentColour(g.start.video, g.border)
    && v.Valid() && border < 8 && last == B.CurrentColour(v, border) == B.LastOf(base, g.seen)
    && B.SameColours(base, requests, base, g.seen) && B.InOrder(g.seen)
    && (requests != [] ==> requests[|requests| - 1].t <= now)
    && (g.seen != [] ==> g.seen[|g.seen| - 1].t <= now)
  }

  // It is after a step that makes it check the colour, or leaves the colour as it is
  lemma BorderFollowsOn(g: Progress, base: nat, requests: seq<B.Event>, last: nat, v: Video, border: nat, now: nat,
                        requests': seq<B.Event>, v': Video, border': nat, g': Progress)
    requires BorderFollows(g, base, requests, last, v, border, now) && v'.Valid() && border' < 8
    requires g'.start == g.start && g'.border == g.border
    requires var e := B.Event(now, B.CurrentColour(v', border'));
             B.Longer(g.seen, e, g'.seen)
             && (B.Longer(requests, e, requests') || (requests' == requests && e.colour == last))
    ensures BorderFollows(g', base, requests', B.CurrentColour(v', border'), v', border', now)
  {
    var e := B.Event(now, B.CurrentColour(v', border'));
    assert g'.seen == g.seen + [e];
    if B.Longer(requests, e, requests') {
      assert requests' == requests + [e];
      B.SameColoursAppend(base, requests, base, g.seen, e);
    } else {
      B.SameColourAgain(base, g.seen, e);
      forall t: nat ensures B.ColourAt(base, requests, t) == B.ColourAt(base, g'.seen, t) {
        var _ := B.ColourAt(base, g.seen, t);
      }
    }
  }

  // Does an operation make the display check the border colour?
  predicate Checks(v: Video, op: L.Op)
    requires v.Valid() && L.OpValid(op)
  {
    match op
    case SetPalette(entry, b) => v.palette[entry] != b
    case SetMode(on) => v.ulaplus != on
    case RefreshAll => true
    case _ => false
  }

  // Otherwise the colour is the same as before
  lemma UncheckedKeeps(v: Video, op: L.Op, border: nat)
    requires v.Valid() && L.OpValid(op) && !Checks(v, op) && border < 8
    ensures B.CurrentColour(L.Apply(v, op), border) == B.CurrentColour(v, border)
  {
    if op.SetPalette? { assert v.palette[op.entry := op.b] == v.palette; }
  }

  // ---------------------------------------------------------------- what was put out

  // The colours current after each step tell the border that palette, mode and port give at any
  // moment, and the port now holds this colour
  ghost predicate Told(g: Progress, border: nat, now: nat) {
    && g.start.video.Valid() && L.OpsValid(g.ops) && border == U.LastOut(g.border, g.outs)
    && U.Tells(g.start.video, g.border, g.ops, g.outs, g.seen, now)
  }

  lemma ToldLater(g: Progress, border: nat, now: nat, later: nat)
    requires Told(g, border, now) && now <= later
    ensures Told(g, border, later)
  {
    U.ByLater(g.ops, g.outs, now, later);
  }

  lemma ToldOperation(g: Progress, border: nat, x: L.Timed, e: B.Event, g': Progress)
    requires Told(g, border, x.t) && L.OpValid(x.op) && border < 8 && Operated(g, x, e, g')
    requires L.OpsValid(g'.ops) && e == B.Event(x.t, B.CurrentColour(L.ApplyAll(g'.start.video, g'.ops), border))
    ensures Told(g', border, x.t)
  {
    assert g'.ops == g.ops + [x] && g'.seen == g.seen + [e];
    U.TellsOp(g.start.video, g.border, g.ops, g.outs, g.seen, x, g'.ops, e, g'.seen);
  }

  lemma ToldOutput(g: Progress, border: nat, x: B.Event, e: B.Event, g': Progress)
    requires Told(g, border, x.t) && x.colour < 8 && Showed(g, x, e, g')
    requires e == B.Event(x.t, B.CurrentColour(L.ApplyAll(g.start.video, g.ops), x.colour))
    ensures Told(g', x.colour, x.t)
  {
    assert g'.outs == g.outs + [x] && g'.seen == g.seen + [e];
    U.TellsOut(g.start.video, g.border, g.ops, g.outs, g.seen, x, g'.outs, e, g'.seen);
  }

  // The inputs are those that the operations of the frame leave
  lemma Left(tm: Timing, g: Progress, s: L.State, now: nat)
    requires tm.Valid() && PaperFollows(tm, g, s, now)
    ensures s.video == L.ApplyAll(g.start.video, g.ops) && s.frames == g.start.frames
  {
    var ops := g.ops;
    assert ops[..|ops|] == ops && L.Run(tm, g.start, ops, s);
    L.RunVideo(tm, g.start, ops, |ops|, s);
  }

  // ---------------------------------------------------------------- frames

  // The frames before this one make a film that began with the inputs `first` and leads to its
  // start
  ghost predicate Filmed(tm: Timing, first: L.Inputs, shots: seq<L.Shot>, start: L.State)
    requires tm.Valid()
  {
    forall last: L.State {:trigger L.Film(tm, shots, last)} :: last == start ==>
      && L.Film(tm, shots, last) && L.FrameStart(L.FilmStart(shots, last))
      && L.InputsOf(L.FilmStart(shots, last)) == first
  }

  // A frame starts with nothing done
  lemma FrameStarts(tm: Timing, s: L.State, border: nat, now: nat)
    requires tm.Valid() && L.FrameStart(s) && s.cx == 0 && s.cy == 0 && border < 8
    ensures var g, base := Progress(s, border, [], [], []), B.CurrentColour(s.video, border);
            && PaperFollows(tm, g, s, now) && BorderFollows(g, base, [], base, s.video, border, now)
            && Told(g, border, now)
  {
    U.TellsNothing(s.video, border, now);
  }

  // Two lists of writes that show the same colours are seen alike
  lemma SameAsSeen(shown: seq<Cell>, tm: Timing, base: nat, events: seq<B.Event>, events': seq<B.Event>)
    requires |shown| == SCREEN_CELLS && tm.Valid() && B.SameColours(base, events, base, events')
    ensures F.BorderAsSeen(shown, tm, base, events) <==> F.BorderAsSeen(shown, tm, base, events')
    ensures B.OneChangeACell(tm, base, events) <==> B.OneChangeACell(tm, base, events')
  {
    forall x, y | B.IsBorder(x, y)
      ensures B.BeamPixels(tm, base, events, x, y) == B.BeamPixels(tm, base, events', x, y)
    {
      B.SamePixels(tm, base, events, base, events', x, y);
    }
  }

  // A window as the beam saw the frame: every paper cell with the inputs in force as the beam
  // passed it, and the border, exactly when two colours a cell are enough, in the colours
  // current as the beam drew it
  ghost predicate AsSeen(shown: seq<Cell>, tm: Timing, g: Progress)
    requires |shown| == SCREEN_CELLS && tm.Valid() && g.start.Valid() && L.OpsValid(g.ops) && g.border < 8
  {
    var base := B.CurrentColour(g.start.video, g.border);
    && F.PaperAsSeen(shown, tm, g.start.video, g.ops)
    && (F.BorderAsSeen(shown, tm, base, g.seen) <==> B.OneChangeACell(tm, base, g.seen))
  }

  // The same dot by dot, from what memory, palette, mode and port held at each moment
  ghost predicate AsBeamed(shown: seq<Cell>, tm: Timing, g: Progress)
    requires |shown| == SCREEN_CELLS && tm.Valid() && g.start.Valid() && L.OpsValid(g.ops)
  {
    && U.ShowsPaper(shown, tm, g.start.video, g.ops)
    && (U.ShowsBorder(shown, tm, g.start.video, g.border, g.ops, g.outs)
        <==> U.TwoColours(tm, g.start.video, g.border, g.ops, g.outs))
  }

  lemma AsUlaShows(shown: seq<Cell>, tm: Timing, g: Progress, border: nat, now: nat)
    requires |shown| == SCREEN_CELLS && tm.Valid() && tm.perLine >= 144 && g.start.Valid() && L.RunValid(g.ops)
    requires g.border < 8 && AsSeen(shown, tm, g) && Told(g, border, now)
    ensures AsBeamed(shown, tm, g)
  {
    var v := g.start.video;
    U.PaperIsShown(shown, tm, v, g.ops);
    U.BorderIsShown(shown, tm, v, g.border, g.ops, g.outs, g.seen, now);
    U.TwoColoursAreEnough(tm, v, g.border, g.ops, g.outs, g.seen, now);
  }

  // Changes of colour at least four T-states apart are seen
  lemma SpacedIsSeen(shown: seq<Cell>, tm: Timing, g: Progress)
    requires |shown| == SCREEN_CELLS && tm.Valid() && g.start.Valid() && L.OpsValid(g.ops) && g.border < 8
    requires AsSeen(shown, tm, g) && B.InOrder(g.seen)
    requires B.Spaced(B.Changes(B.CurrentColour(g.start.video, g.border), g.seen))
    ensures F.BorderAsSeen(shown, tm, B.CurrentColour(g.start.video, g.border), g.seen)
  {
    B.SpacedChanges(tm, B.CurrentColour(g.start.video, g.border), g.seen);
  }

  // The film goes on with the frame that has ended
  lemma FilmedOn(tm: Timing, first: L.Inputs, shots: seq<L.Shot>, g: Progress, drawn: L.State, e: L.State,
                 shots': seq<L.Shot>)
    requires tm.Valid() && Filmed(tm, first, shots, g.start) && L.Spans(tm, g.start, g.ops, drawn, e)
    requires B.Longer(shots, L.Shot(g.start, g.ops, drawn), shots')
    ensures Filmed(tm, first, shots', e)
  {
    var shot := L.Shot(g.start, g.ops, drawn);
    assert shots' == shots + [shot];
    assert L.Film(tm, shots, g.start) && L.WholeFrame(tm, g.start, g.ops, drawn, e);
    L.FilmAppend(tm, shots, shot, e);
  }

  lemma LongerFilm(shots: seq<L.Shot>, shot: L.Shot) returns (shots': seq<L.Shot>)
    ensures B.Longer(shots, shot, shots')
  {
    shots' := shots + [shot];
  }

  // The flash phase has no part in the border colour
  lemma FlashKeepsColour(v: Video, flash: bool, border: nat)
    requires v.Valid() && border < 8
    ensures v.(flash := flash).Valid() && B.CurrentColour(v.(flash := flash), border) == B.CurrentColour(v, border)
  {
  }

  // One operation on the paper, in company
  method Affect(paper: P.Display, border: B.BorderDisplay, screen: S.Screen, op: L.Op)
    requires F.Sound(paper, border, screen) && L.OpValid(op) && NotAhead(paper.Abs(), paper.Now())
    modifies paper.ram, paper.palette, paper.maybe, paper.buffers.Repr
    modifies paper`page, paper`ulaplus, paper`palettePending, paper`cx, paper`cy
    modifies paper`cachedTstates, paper`cachedX, paper`cachedY
    ensures F.Sound(paper, border, screen) && NotAhead(paper.Abs(), paper.Now())
    ensures L.Next(old(paper.Abs()), paper.Now(), op, paper.Abs())
  {
    ghost var s := paper.Abs();
    Carry(paper, op);
    NextNotAhead(s, paper.Now(), op, paper.Abs());
    F.NextGrows(s, paper.Now(), op, paper.Abs());
    S.WaitingKept(screen.shown[..], s.canvas, paper.Abs().canvas, screen.redrawAll, screen.rects.inactive);
  }

  method Carry(paper: P.Display, op: L.Op)
    requires paper.Valid() && L.OpValid(op) && NotAhead(paper.Abs(), paper.Now())
    modifies paper.ram, paper.palette, paper.maybe, paper.buffers.Repr
    modifies paper`page, paper`ulaplus, paper`palettePending, paper`cx, paper`cy
    modifies paper`cachedTstates, paper`cachedX, paper`cachedY
    ensures paper.Valid() && L.Next(old(paper.Abs()), paper.Now(), op, paper.Abs())
  {
    match op {
      case Write(page, offset, b) => paper.WriteRam(page, offset, b);
      case SetPalette(entry, b) => paper.SetPaletteEntry(entry, b);
      case SetMode(on) => paper.SetUlaplusMode(on);
      case SwitchScreen(page) => paper.ShowScreen(page);
      case RefreshAll => paper.RefreshEverything();
    }
  }

  // ---------------------------------------------------------------- the machine

  class Machine {
    const paper: P.Display
    const border: B.BorderDisplay
    const screen: S.Screen
    var borderColour: nat            // display_lores_border

    ghost var frame: Progress        // the frame in progress
    ghost var shots: seq<L.Shot>     // the frames before it
    ghost const first: L.Inputs      // the inputs that the first of them began with

    ghost predicate Valid()
      reads this, paper, paper.ram, paper.palette, paper.maybe, border, border.pixels
      reads screen, screen.rects, screen.shown, paper.buffers.Repr, border.buffers.Repr, screen.buffers.Repr
    {
      Stands(frame)
    }

    // The display is as it should be after what has happened in frame g
    ghost predicate Stands(g: Progress)
      reads this`borderColour, this`shots, paper, paper.ram, paper.palette, paper.maybe, border, border.pixels
      reads screen, screen.rects, screen.shown, paper.buffers.Repr, border.buffers.Repr, screen.buffers.Repr
    {
      && F.Sound(paper, border, screen)
      && PaperFollows(paper.timing, g, paper.Abs(), paper.tstates)
      && BorderFollows(g, border.base, border.requests, border.lastBorder, paper.Abs().video, borderColour,
                       paper.tstates)
      && Told(g, borderColour, paper.tstates)
      && Filmed(paper.timing, first, shots, g.start) && first.frames == 0 && !first.video.flash
    }

    // display_init, for a machine with the given timing
    constructor (timing: Timing)
      requires timing.Valid() && timing.perLine >= B.LINE_TSTATES
      ensures Valid() && paper.timing == timing && borderColour == 0
      ensures fresh(paper.Repr + border.Repr + screen.Repr)
      ensures shots == [] && frame == Progress(paper.Abs(), 0, [], [], [])
      ensures paper.tstates == 0 && paper.page == 5 && !paper.ulaplus && !paper.flash && paper.frames == 0
    {
      var p, b, s := F.Create(timing);
      paper, border, screen, borderColour := p, b, s, 0;
      frame, shots, first := Progress(p.Abs(), 0, [], [], []), [], L.InputsOf(p.Abs());
      FrameStarts(timing, p.Abs(), 0, p.tstates);
    }

    // The frame has come this far
    ghost method GoOn(g: Progress)
      requires Stands(g)
      modifies this`frame
      ensures Valid() && frame == g
    {
      frame := g;
    }

    // current_border_colour
    method CurrentBorderColour() returns (colour: nat)
      requires paper.Valid() && borderColour < 8
      ensures colour == B.CurrentColour(paper.Abs().video, borderColour)
      ensures colour == if paper.ulaplus then 16 + paper.palette[8 + borderColour] else borderColour
    {
      if paper.ulaplus {
        colour := ULAPLUS_BASE + paper.palette[(8 + borderColour % 8) % PALETTE_SIZE];
      } else {
        colour := borderColour;
      }
    }

    // The processor goes on
    method Elapse(spent: nat)
      requires Valid() && paper.tstates + spent < P.NO_TSTATES
      modifies paper`tstates
      ensures Valid() && paper.tstates == old(paper.tstates) + spent
    {
      PaperFollowsLater(paper.timing, frame, paper.Abs(), paper.tstates, paper.tstates + spent);
      ToldLater(frame, borderColour, paper.tstates, paper.tstates + spent);
      F.Elapse(paper, border, screen, spent);
    }

    // display_border_recheck
    method Recheck()
      requires F.Sound(paper, border, screen) && borderColour < 8
      requires border.requests != [] ==> border.requests[|border.requests| - 1].t <= paper.tstates
      modifies border`changes, border`events, border`requests, border`lastBorder
      ensures F.Sound(paper, border, screen)
      ensures border.lastBorder == B.CurrentColour(paper.Abs().video, borderColour)
      ensures B.Longer(old(border.requests), Seen(), border.requests)
    {
      var colour := CurrentBorderColour();
      border.CheckChange(paper.tstates, colour);
    }

    // The border colour that is current now, as Valid() says
    ghost function Seen(): B.Event
      reads paper`tstates, border`lastBorder
    {
      B.Event(paper.tstates, border.lastBorder)
    }

    // display_set_lores_border
    method SetBorder(colour: nat)
      requires F.Sound(paper, border, screen) && colour < 8
      requires border.requests != [] ==> border.requests[|border.requests| - 1].t <= paper.tstates
      modifies this`borderColour, border`changes, border`events, border`requests, border`lastBorder
      ensures F.Sound(paper, border, screen) && borderColour == colour
      ensures border.lastBorder == B.CurrentColour(paper.Abs().video, borderColour)
      ensures Seen().colour == if paper.ulaplus then 16 + paper.palette[8 + colour] else colour
      ensures B.Longer(old(border.requests), Seen(), border.requests)
    {
      borderColour := colour;
      Recheck();
    }

    // A program puts out a border colour
    method Output(colour: nat)
      requires Valid() && colour < 8
      modifies this`borderColour, this`frame, border`changes, border`events, border`requests, border`lastBorder
      ensures Valid() && borderColour == colour && Showed(old(frame), B.Event(paper.tstates, colour), Seen(), frame)
      ensures Seen().colour == if paper.ulaplus then 16 + paper.palette[8 + colour] else colour
    {
      ghost var g := PutOut(colour);
      GoOn(g);
    }

    method PutOut(colour: nat) returns (ghost g: Progress)
      requires Valid() && colour < 8
      modifies this`borderColour, border`changes, border`events, border`requests, border`lastBorder
      ensures Stands(g) && borderColour == colour && Showed(frame, B.Event(paper.tstates, colour), Seen(), g)
      ensures Seen().colour == if paper.ulaplus then 16 + paper.palette[8 + colour] else colour
    {
      ghost var v, c, last, requests := paper.Abs().video, borderColour, border.lastBorder, border.requests;
      SetBorder(colour);
      Left(paper.timing, frame, paper.Abs(), paper.tstates);
      ghost var x := B.Event(paper.tstates, colour);
      g := ShowOne(frame, x, Seen());
      ToldOutput(frame, c, x, Seen(), g);
      BorderFollowsOn(frame, border.base, requests, last, v, c, paper.tstates, border.requests, v, colour, g);
    }

    // What an operation does to the display; does it make it check the border colour?
    method Operate(op: L.Op) returns (checked: bool)
      requires F.Sound(paper, border, screen) && L.OpValid(op) && NotAhead(paper.Abs(), paper.Now())
      modifies paper.ram, paper.palette, paper.maybe, paper.buffers.Repr
      modifies paper`page, paper`ulaplus, paper`palettePending, paper`cx, paper`cy
      modifies paper`cachedTstates, paper`cachedX, paper`cachedY, screen`redrawAll
      ensures F.Sound(paper, border, screen) && NotAhead(paper.Abs(), paper.Now())
      ensures L.Next(old(paper.Abs()), paper.Now(), op, paper.Abs()) && checked == old(Checks(paper.Abs().video, op))
      ensures screen.redrawAll == (op.RefreshAll? || old(screen.redrawAll))
    {
      checked := NeedsCheck(op);
      Affect(paper, border, screen, op);
      if op.RefreshAll? { screen.RedrawAll(); }
    }

    method NeedsCheck(op: L.Op) returns (checked: bool)
      requires paper.Valid() && L.OpValid(op)
      ensures checked == Checks(paper.Abs().video, op)
    {
      match op {
        case SetPalette(entry, b) => checked := paper.palette[entry] != b;
        case SetMode(on) => checked := paper.ulaplus != on;
        case RefreshAll => checked := true;
        case _ => checked := false;
      }
    }

    // The paper follows it, and so does the border if it is checked or need not be
    method Draw(op: L.Op) returns (checked: bool)
      requires Valid() && L.OpValid(op)
      modifies paper.ram, paper.palette, paper.maybe, paper.buffers.Repr
      modifies paper`page, paper`ulaplus, paper`palettePending, paper`cx, paper`cy
      modifies paper`cachedTstates, paper`cachedX, paper`cachedY, screen`redrawAll
      ensures F.Sound(paper, border, screen)
      ensures forall g :: Goes(frame, L.Timed(paper.tstates, op), g) ==>
                PaperFollows(paper.timing, g, paper.Abs(), paper.tstates)
      ensures checked || border.lastBorder == B.CurrentColour(paper.Abs().video, borderColour)
    {
      ghost var s := paper.Abs();
      checked := Operate(op);
      if !checked { UncheckedKeeps(s.video, op, borderColour); }
      forall g | Goes(frame, L.Timed(paper.tstates, op), g)
        ensures PaperFollows(paper.timing, g, paper.Abs(), paper.tstates)
      {
        PaperFollowsOn(paper.timing, frame, s, paper.tstates, op, paper.Abs(), g);
      }
    }

    // Check the border colour if need be
    method Settle(checked: bool)
      requires F.Sound(paper, border, screen) && borderColour < 8
      requires border.requests != [] ==> border.requests[|border.requests| - 1].t <= paper.tstates
      requires checked || border.lastBorder == B.CurrentColour(paper.Abs().video, borderColour)
      modifies border`changes, border`events, border`requests, border`lastBorder
      ensures F.Sound(paper, border, screen)
      ensures border.lastBorder == B.CurrentColour(paper.Abs().video, borderColour)
      ensures if checked then B.Longer(old(border.requests), Seen(), border.requests)
              else border.requests == old(border.requests) && border.lastBorder == old(border.lastBorder)
    {
      if checked { Recheck(); }
    }

    // All that an operation does
    method Perform(op: L.Op)
      requires Valid() && L.OpValid(op)
      modifies paper.ram, paper.palette, paper.maybe, paper.buffers.Repr
      modifies paper`page, paper`ulaplus, paper`palettePending, paper`cx, paper`cy
      modifies paper`cachedTstates, paper`cachedX, paper`cachedY, screen`redrawAll
      modifies border`changes, border`events, border`requests, border`lastBorder
      ensures F.Sound(paper, border, screen)
      ensures forall g :: Goes(frame, L.Timed(paper.tstates, op), g) ==>
                PaperFollows(paper.timing, g, paper.Abs(), paper.tstates)
      ensures border.lastBorder == B.CurrentColour(paper.Abs().video, borderColour)
      ensures B.Longer(old(border.requests), Seen(), border.requests)
           || (border.requests == old(border.requests) && border.lastBorder == old(border.lastBorder))
    {
      var checked := Draw(op);
      Settle(checked);
    }

    // A program changes memory, palette, mode or screen, or the user interface asks for the
    // whole picture
    method Run(op: L.Op)
      requires Valid() && L.OpValid(op)
      modifies paper.ram, paper.palette, paper.maybe, paper.buffers.Repr
      modifies paper`page, paper`ulaplus, paper`palettePending, paper`cx, paper`cy
      modifies paper`cachedTstates, paper`cachedX, paper`cachedY, screen`redrawAll
      modifies this`frame, border`changes, border`events, border`requests, border`lastBorder
      ensures Valid() && Operated(old(frame), L.Timed(paper.tstates, op), Seen(), frame)
    {
      ghost var g := CarryOut(op);
      GoOn(g);
    }

    method CarryOut(op: L.Op) returns (ghost g: Progress)
      requires Valid() && L.OpValid(op)
      modifies paper.ram, paper.palette, paper.maybe, paper.buffers.Repr
      modifies paper`page, paper`ulaplus, paper`palettePending, paper`cx, paper`cy
      modifies paper`cachedTstates, paper`cachedX, paper`cachedY, screen`redrawAll
      modifies border`changes, border`events, border`requests, border`lastBorder
      ensures Stands(g) && Operated(frame, L.Timed(paper.tstates, op), Seen(), g)
    {
      ghost var v, last, requests := paper.Abs().video, border.lastBorder, border.requests;
      Perform(op);
      ghost var x := L.Timed(paper.tstates, op);
      g := OperateOne(frame, x, Seen());
      Left(paper.timing, g, paper.Abs(), paper.tstates);
      ToldOperation(frame, borderColour, x, Seen(), g);
      BorderFollowsOn(frame, border.base, requests, last, v, borderColour, paper.tstates,
                      border.requests, paper.Abs().video, borderColour, g);
    }

    // Memory, palette, mode and screen hold what the frame set them to last
    lemma Inputs()
      requires Valid()
      ensures paper.Abs().video == L.ApplyAll(frame.start.video, frame.ops) && paper.frames == frame.start.frames
      ensures U.Sampled(paper.Abs().video, frame.start.video, frame.ops, paper.tstates + 1)
    {
      Left(paper.timing, frame, paper.Abs(), paper.tstates);
      U.AllSampled(frame.start.video, frame.ops, paper.tstates, paper.tstates + 1);
    }

    // The clock goes back by the length of the frame
    method TakeOff(length: nat) returns (colour: nat)
      requires Valid() && length <= paper.tstates
      requires PaperBeam(paper.timing, paper.tstates - length) == Point(0, 0)
      modifies paper`tstates
      ensures F.Sound(paper, border, screen) && paper.tstates == old(paper.tstates) - length
      ensures paper.Abs() == old(paper.Abs()) && paper.Now() == Point(0, 0)
      ensures colour == border.lastBorder && B.IsBorderColour(colour) && L.FrameStart(frame.start)
      ensures L.RunValid(frame.ops) && L.Leads(paper.timing, frame.start, frame.ops, paper.Abs())
    {
      colour := CurrentBorderColour();
      InTimeIsOrdered(frame.ops, paper.tstates);
      F.TakeOff(paper, border, screen, length);
    }

    // What display_frame does to the display
    method Finish(length: nat, frameRate: int) returns (ghost drawn: L.State)
      requires Valid() && length <= paper.tstates
      requires PaperBeam(paper.timing, paper.tstates - length) == Point(0, 0)
      modifies paper`tstates, paper`flash, paper`frames, paper`cachedTstates, paper`cachedX, paper`cachedY
      modifies paper`cx, paper`cy, paper`palettePending, paper.maybe, paper.buffers.Repr
      modifies border`changes, border`base, border`events, border`requests, border.pixels
      modifies screen`frameCount, screen`redrawAll, screen.rects, screen.shown
      ensures F.Sound(paper, border, screen) && paper.tstates == old(paper.tstates) - length
      ensures L.FrameStart(paper.Abs()) && L.Spans(paper.timing, frame.start, frame.ops, drawn, paper.Abs())
      ensures border.base == border.lastBorder == B.CurrentColour(paper.Abs().video, borderColour)
      ensures border.requests == []
      ensures frameRate <= old(screen.frameCount) + 1 ==>
                && F.PaperAsSeen(screen.shown[..], paper.timing, frame.start.video, frame.ops)
                && (F.BorderAsSeen(screen.shown[..], paper.timing, old(border.base), old(border.requests))
                    <==> old(B.OneChangeACell(paper.timing, border.base, border.requests)))
    {
      ghost var v := paper.Abs().video;
      Inputs();
      var colour := TakeOff(length);
      drawn := F.DisplayFrame(paper, border, screen, colour, frameRate, frame.start, frame.ops);
      FlashKeepsColour(v, paper.flash, borderColour);
    }

    // What that shows
    method Picture(length: nat, frameRate: int) returns (ghost drawn: L.State)
      requires Valid() && length <= paper.tstates
      requires PaperBeam(paper.timing, paper.tstates - length) == Point(0, 0)
      modifies paper`tstates, paper`flash, paper`frames, paper`cachedTstates, paper`cachedX, paper`cachedY
      modifies paper`cx, paper`cy, paper`palettePending, paper.maybe, paper.buffers.Repr
      modifies border`changes, border`base, border`events, border`requests, border.pixels
      modifies screen`frameCount, screen`redrawAll, screen.rects, screen.shown
      ensures F.Sound(paper, border, screen) && paper.tstates == old(paper.tstates) - length
      ensures L.FrameStart(paper.Abs()) && L.Spans(paper.timing, frame.start, frame.ops, drawn, paper.Abs())
      ensures border.base == border.lastBorder == B.CurrentColour(paper.Abs().video, borderColour)
      ensures border.requests == [] && B.InOrder(frame.seen)
      ensures frameRate <= old(screen.frameCount) + 1 ==>
                AsSeen(screen.shown[..], paper.timing, frame) && AsBeamed(screen.shown[..], paper.timing, frame)
    {
      ghost var base, requests, now := border.base, border.requests, paper.tstates;
      InTimeIsOrdered(frame.ops, now);
      drawn := Finish(length, frameRate);
      SameAsSeen(screen.shown[..], paper.timing, base, requests, frame.seen);
      if frameRate <= old(screen.frameCount) + 1 {
        AsUlaShows(screen.shown[..], paper.timing, frame, borderColour, now);
      }
    }

    // The next frame starts
    ghost method TurnOver(drawn: L.State)
      requires F.Sound(paper, border, screen) && borderColour < 8
      requires Filmed(paper.timing, first, shots, frame.start) && first.frames == 0 && !first.video.flash
      requires L.FrameStart(paper.Abs()) && L.Spans(paper.timing, frame.start, frame.ops, drawn, paper.Abs())
      requires border.base == border.lastBorder == B.CurrentColour(paper.Abs().video, borderColour)
      requires border.requests == []
      modifies this`frame, this`shots
      ensures Valid() && frame == Progress(paper.Abs(), borderColour, [], [], [])
      ensures B.Longer(old(shots), L.Shot(old(frame.start), old(frame.ops), drawn), shots)
    {
      ghost var film := LongerFilm(shots, L.Shot(frame.start, frame.ops, drawn));
      FilmedOn(paper.timing, first, shots, frame, drawn, paper.Abs(), film);
      FrameStarts(paper.timing, paper.Abs(), borderColour, paper.tstates);
      frame, shots := Progress(paper.Abs(), borderColour, [], [], []), film;
    }

    // The end of a frame of the given length, before the beam reaches the paper again: if it
    // is due to be shown, the window shows it as the beam saw it
    method EndFrame(length: nat, frameRate: int) returns (ghost drawn: L.State)
      requires Valid() && length <= paper.tstates
      requires PaperBeam(paper.timing, paper.tstates - length) == Point(0, 0)
      modifies paper`tstates, paper`flash, paper`frames, paper`cachedTstates, paper`cachedX, paper`cachedY
      modifies paper`cx, paper`cy, paper`palettePending, paper.maybe, paper.buffers.Repr
      modifies border`changes, border`base, border`events, border`requests, border.pixels
      modifies screen`frameCount, screen`redrawAll, screen.rects, screen.shown, this`frame, this`shots
      ensures Valid() && paper.tstates == old(paper.tstates) - length
      ensures frame == Progress(paper.Abs(), borderColour, [], [], [])
      ensures B.Longer(old(shots), L.Shot(old(frame.start), old(frame.ops), drawn), shots)
      ensures frameRate <= old(screen.frameCount) + 1 ==>
                && AsSeen(screen.shown[..], paper.timing, old(frame))
                && AsBeamed(screen.shown[..], paper.timing, old(frame))
      ensures B.InOrder(old(frame.seen))
    {
      drawn := Picture(length, frameRate);
      TurnOver(drawn);
    }

    // Over a whole run every frame shows the picture of an eager display, which knows only the
    // first inputs and what happened since, and the flash phase turns every sixteen frames
    lemma RunsEagerly()
      requires Valid()
      ensures first.video.Valid() && L.EagerFilm(paper.timing, first, shots)
      ensures L.InputsOf(frame.start) == L.EagerInputs(first, shots)
      ensures paper.frames == |shots| % 32 && paper.flash == (|shots| / 16 % 2 == 1)
    {
      assert L.Film(paper.timing, shots, frame.start);
      L.FilmIsEager(paper.timing, shots, frame.start);
      L.FlashPhase(first, shots);
      Inputs();
    }
  }
}
