/** Where the beam is at a given T-state. */
module Beam {
  import opened Video

  // Start of each visible line, then of the line below the last one
  datatype Timing = Timing(lineTimes: seq<nat>, perLine: nat)
  {
    ghost predicate Valid() {
      && perLine > 0 && |lineTimes| == SCREEN_HEIGHT + 1
      && forall y :: 0 <= y <= SCREEN_HEIGHT ==> lineTimes[y] == lineTimes[0] + y * perLine
    }
  }

  datatype Point = Point(x: int, y: int)

  // display_get_beam_position: columns and lines counted from the corner of the border
  function BeamPosition(tm: Timing, t: nat): (r: Point)
    requires tm.Valid()
    ensures t < tm.lineTimes[0] ==> r == Point(-1, -1)
    ensures t >= tm.lineTimes[0] ==>
              0 <= r.y && 0 <= r.x && r.y * tm.perLine <= t - tm.lineTimes[0] < (r.y + 1) * tm.perLine
    ensures t >= tm.lineTimes[0] && r.y <= SCREEN_HEIGHT ==> 4 * r.x <= t - tm.lineTimes[r.y] < 4 * (r.x + 1)
    ensures r.y > SCREEN_HEIGHT ==> r.x == 0
  {
    if t < tm.lineTimes[0] then Point(-1, -1)
    else
      var y := (t - tm.lineTimes[0]) / tm.perLine;
      DivBounds(t - tm.lineTimes[0], tm.perLine);
      Point(if y <= SCREEN_HEIGHT then (t - tm.lineTimes[y]) / 4 else 0, y)
  }

  lemma DivBounds(n: nat, d: nat)
    requires d > 0
    ensures 0 <= n / d && n / d * d <= n < (n / d + 1) * d
  {
    assert n == n / d * d + n % d;
    assert (n / d + 1) * d == n / d * d + d;
  }

  // The same on the paper, clamped to its edges
  function PaperBeam(tm: Timing, t: nat): (r: Point)
    requires tm.Valid()
    ensures 0 <= r.x <= WIDTH_COLS && 0 <= r.y < HEIGHT
  {
    var raw := BeamPosition(tm, t);
    var x, y := raw.x - BORDER_WIDTH_COLS, raw.y - BORDER_HEIGHT;
    var p := if y < 0 then Point(0, 0)
             else if y >= HEIGHT then Point(WIDTH_COLS, HEIGHT - 1)
             else Point(x, y);
    Point(if p.x < 0 then 0 else if p.x > WIDTH_COLS then WIDTH_COLS else p.x, p.y)
  }

  // How many paper cells the beam has passed
  function Passed(tm: Timing, t: nat): (k: nat)
    requires tm.Valid()
    ensures k <= PIXEL_BYTES
  {
    var p := PaperBeam(tm, t);
    Pos(p.x, p.y)
  }

  lemma QuotientsOrdered(q: nat, q': nat, p: nat, n: nat, n': nat)
    requires p > 0 && n <= n' && q * p <= n && n' < (q' + 1) * p
    ensures q <= q'
  {
    if q > q' {
      assert q * p >= (q' + 1) * p by { MulMono(q' + 1, q, p); }
      assert false;
    }
  }

  lemma MulMono(a: nat, b: nat, p: nat)
    requires a <= b
    ensures a * p <= b * p
  {
    assert b * p == a * p + (b - a) * p;
  }

  // The beam only moves forward over the paper
  lemma PassedMonotone(tm: Timing, t: nat, t': nat)
    requires tm.Valid() && t <= t'
    ensures Passed(tm, t) <= Passed(tm, t')
  {
    if t >= tm.lineTimes[0] {
      var r, r' := BeamPosition(tm, t), BeamPosition(tm, t');
      QuotientsOrdered(r.y, r'.y, tm.perLine, t - tm.lineTimes[0], t' - tm.lineTimes[0]);
    }
  }

  // Line by line and column by column
  lemma BeamMonotone(tm: Timing, t: nat, t': nat)
    requires tm.Valid() && t <= t'
    ensures var p, q := PaperBeam(tm, t), PaperBeam(tm, t');
            p.y < q.y || (p.y == q.y && p.x <= q.x)
  {
    if t >= tm.lineTimes[0] {
      var r, r' := BeamPosition(tm, t), BeamPosition(tm, t');
      QuotientsOrdered(r.y, r'.y, tm.perLine, t - tm.lineTimes[0], t' - tm.lineTimes[0]);
    }
  }

  // The cells already passed are those behind the beam, line by line then column by column
  lemma PassedMeansBehindBeam(tm: Timing, t: nat, x: nat, y: nat)
    requires tm.Valid() && IsPaper(x, y)
    ensures var p := PaperBeam(tm, t);
            Pos(x, y) < Passed(tm, t) <==> (y < p.y || (y == p.y && x < p.x))
  {
  }

  // In terms of the times alone: a cell has been passed from the moment on at which the beam has
  // left its column, or the line, if lines are shorter than that
  lemma PassedWhen(tm: Timing, t: nat, x: nat, y: nat)
    requires tm.Valid() && IsPaper(x, y)
    ensures Pos(x, y) < Passed(tm, t) <==> t >= tm.lineTimes[y + 24] + 4 * (x + 5) || t >= tm.lineTimes[y + 25]
    ensures tm.perLine >= 144 ==> (Pos(x, y) < Passed(tm, t) <==> t >= tm.lineTimes[y + 24] + 4 * (x + 5))
  {
    PassedMeansBehindBeam(tm, t, x, y);
    var n, start := y + 24, tm.lineTimes[0];
    assert (n + 1) * tm.perLine == n * tm.perLine + tm.perLine;
    if t >= start {
      var r := BeamPosition(tm, t);
      if r.y > n {
        MulMono(n + 1, r.y, tm.perLine);
      } else if r.y < n {
        MulMono(r.y + 1, n, tm.perLine);
      }
    } else {
      MulMono(0, n, tm.perLine);
    }
  }

  // machine_set_variable_timings
  method SetLineTimes(topLeftPixel: nat, perLine: nat, late: bool) returns (times: array<nat>)
    requires perLine > 0 && topLeftPixel >= BORDER_HEIGHT * perLine + 4 * BORDER_WIDTH_COLS
    ensures times.Length == SCREEN_HEIGHT + 1 && fresh(times)
    ensures Timing(times[..], perLine).Valid()
    ensures times[BORDER_HEIGHT] + 4 * BORDER_WIDTH_COLS == topLeftPixel + if late then 1 else 0
  {
    times := new nat[SCREEN_HEIGHT + 1];
    times[0] := topLeftPixel - BORDER_HEIGHT * perLine - 4 * BORDER_WIDTH_COLS;
    if late { times[0] := times[0] + 1; }
    var y := 1;
    while y < SCREEN_HEIGHT + 1
      invariant 1 <= y <= SCREEN_HEIGHT + 1
      invariant times[0] == topLeftPixel - BORDER_HEIGHT * perLine - 4 * BORDER_WIDTH_COLS + if late then 1 else 0
      invariant forall j :: 0 <= j < y ==> times[j] == times[0] + j * perLine
    {
      times[y] := times[y - 1] + perLine;
      assert (y - 1) * perLine + perLine == y * perLine;
      y := y + 1;
    }
    assert times[BORDER_HEIGHT] == times[0] + BORDER_HEIGHT * perLine;
  }
}
