/** movie.c: the run-length code in which rectangles of the screen are recorded. */
module Movie {
  import Bits
  import Video

  const BUFFER: nat := 960

  datatype Option<T> = None | Some(value: T)

  // ---------------------------------------------------------------- the code

  // While encoding: l is the length of the run beyond its first two bytes, or -1 outside a
  // run, and last the byte before
  datatype Coder = Coder(l: int, last: int, out: seq<int>)

  function Push(st: Coder, d: int): Coder {
    if d != st.last then Coder(-1, d, (if st.l > -1 then st.out + [st.l] else st.out) + [d])
    else if st.l >= 0 then
      if st.l == 255 then Coder(-1, d, st.out + [255, d]) else st.(l := st.l + 1)
    else Coder(0, d, st.out + [d])
  }

  // After the first n bytes, where before differs from the very first
  function CoderAt(before: int, ds: seq<int>, n: nat): Coder
    requires n <= |ds|
  {
    if n == 0 then Coder(-1, before, []) else Push(CoderAt(before, ds, n - 1), ds[n - 1])
  }

  function Finished(st: Coder): seq<int> { if st.l > -1 then st.out + [st.l] else st.out }

  function Encoded(ds: seq<int>): seq<int> {
    if ds == [] then [] else Finished(CoderAt((ds[0] + 1) % 256, ds, |ds|))
  }

  lemma {:induction false} CoderSame(before: int, ds: seq<int>, es: seq<int>, n: nat)
    requires n <= |ds| && n <= |es| && forall i :: 0 <= i < n ==> ds[i] == es[i]
    ensures CoderAt(before, ds, n) == CoderAt(before, es, n)
  {
    if n > 0 { CoderSame(before, ds, es, n - 1); }
  }

  lemma CoderAppend(before: int, ds: seq<int>, d: int)
    ensures CoderAt(before, ds + [d], |ds| + 1) == Push(CoderAt(before, ds, |ds|), d)
  {
    CoderSame(before, ds, ds + [d], |ds|);
  }

  // The code is never more than half as long again
  lemma {:induction false} CodeIsShort(before: int, ds: seq<int>, n: nat)
    requires n <= |ds| && (ds != [] ==> ds[0] != before)
    ensures var st := CoderAt(before, ds, n);
            -1 <= st.l <= 255 && 2 * |Finished(st)| <= 3 * n && (st.l == -1 && n > 0 ==> 2 * |st.out| < 3 * n)
  {
    if n > 0 { CodeIsShort(before, ds, n - 1); }
  }

  lemma EncodedIsShort(ds: seq<int>)
    requires forall i :: 0 <= i < |ds| ==> 0 <= ds[i] < 256
    ensures 2 * |Encoded(ds)| <= 3 * |ds|
  {
    if ds != [] { CodeIsShort((ds[0] + 1) % 256, ds, |ds|); }
  }

  // ---------------------------------------------------------------- its meaning

  // A byte that follows itself is followed by how many more there are of it
  datatype Expecting = Any | OtherThan(d: int) | Count(d: int)

  datatype Reader = Reader(expecting: Expecting, out: seq<int>)

  function Repeated(d: int, n: int): (r: seq<int>)
    ensures n >= 0 ==> |r| == n && forall i :: 0 <= i < n ==> r[i] == d
  {
    if n <= 0 then [] else Repeated(d, n - 1) + [d]
  }

  function Feed(r: Reader, b: int): Reader {
    match r.expecting
    case Count(d) => Reader(Any, r.out + Repeated(d, b))
    case OtherThan(d) => Reader(if b == d then Count(d) else OtherThan(b), r.out + [b])
    case Any => Reader(OtherThan(b), r.out + [b])
  }

  function ReaderAt(code: seq<int>, n: nat): Reader
    requires n <= |code|
  {
    if n == 0 then Reader(Any, []) else Feed(ReaderAt(code, n - 1), code[n - 1])
  }

  function Read(code: seq<int>): Reader { ReaderAt(code, |code|) }

  lemma {:induction false} ReaderSame(code: seq<int>, other: seq<int>, n: nat)
    requires n <= |code| && n <= |other| && forall i :: 0 <= i < n ==> code[i] == other[i]
    ensures ReaderAt(code, n) == ReaderAt(other, n)
  {
    if n > 0 { ReaderSame(code, other, n - 1); }
  }

  lemma ReadAppend(code: seq<int>, b: int)
    ensures Read(code + [b]) == Feed(Read(code), b)
  {
    ReaderSame(code, code + [b], |code|);
  }

  // What the reader has made of the code so far: all the bytes but those still being counted
  ghost predicate Keeps(st: Coder, ds: seq<int>, n: nat)
    requires n <= |ds|
  {
    var r := Read(st.out);
    && -1 <= st.l <= 255
    && r.out + Repeated(st.last, st.l) == ds[..n]
    && (if st.l >= 0 then r.expecting == Count(st.last)
        else if n == 0 then r.expecting == Any else r.expecting == OtherThan(st.last))
  }

  lemma PushKeeps(st: Coder, ds: seq<int>, n: nat)
    requires n < |ds| && Keeps(st, ds, n) && (n == 0 ==> ds[0] != st.last && st.out == [] && st.l == -1)
    ensures Keeps(Push(st, ds[n]), ds, n + 1)
  {
    var d := ds[n];
    assert ds[..n + 1] == ds[..n] + [d];
    ReadAppend(st.out, d);
    if st.l > -1 {
      ReadAppend(st.out, st.l);
      ReadAppend(st.out + [st.l], d);
      assert st.out + [255, d] == st.out + [255] + [d];
    }
  }

  lemma {:induction false} CoderKeeps(before: int, ds: seq<int>, n: nat)
    requires n <= |ds| && (ds != [] ==> ds[0] != before)
    ensures Keeps(CoderAt(before, ds, n), ds, n)
  {
    if n > 0 {
      CoderKeeps(before, ds, n - 1);
      PushKeeps(CoderAt(before, ds, n - 1), ds, n - 1);
    }
  }

  // Has the reader got n bytes, and is it not in the middle of a run?
  predicate Complete(r: Reader, n: nat) { |r.out| >= n && !r.expecting.Count? }

  // Reading on to the end of n bytes, from position i
  function ReadOn(code: seq<int>, i: nat, r: Reader, n: nat): (p: (Reader, nat))
    requires i <= |code|
    ensures i <= p.1 <= |code|
    decreases |code| - i
  {
    if i == |code| || Complete(r, n) then (r, i) else ReadOn(code, i + 1, Feed(r, code[i]), n)
  }

  lemma {:induction false} ReadGrows(code: seq<int>, i: nat, j: nat)
    requires i <= j <= |code|
    ensures |ReaderAt(code, i).out| <= |ReaderAt(code, j).out|
  {
    if i < j { ReadGrows(code, i, j - 1); }
  }

  // Before the last byte of the code, something is missing still
  lemma {:induction false} NotCompleteBefore(before: int, ds: seq<int>, i: nat)
    requires ds != [] && ds[0] != before
    requires i < |Finished(CoderAt(before, ds, |ds|))|
    ensures !Complete(ReaderAt(Finished(CoderAt(before, ds, |ds|)), i), |ds|)
  {
    var st := CoderAt(before, ds, |ds|);
    CoderKeeps(before, ds, |ds|);
    var m := |st.out|;
    ReaderSame(Finished(st), st.out, m);
    if st.l > -1 {
      if i < m { ReadGrows(st.out, i, m - 1); ReaderSame(Finished(st), st.out, i); }
    } else {
      ReadGrows(st.out, i, m - 1);
    }
  }

  // The code stands in s from position k on
  ghost predicate StandsAt(s: seq<int>, k: nat, code: seq<int>) {
    k + |code| <= |s| && forall i :: 0 <= i < |code| ==> s[k + i] == code[i]
  }

  lemma {:induction false} ReadsThrough(s: seq<int>, k: nat, ds: seq<int>, i: nat)
    requires StandsAt(s, k, Encoded(ds)) && i <= |Encoded(ds)|
    ensures var (r, j) := ReadOn(s, k + i, ReaderAt(Encoded(ds), i), |ds|);
            r.out == ds && j == k + |Encoded(ds)|
    decreases |Encoded(ds)| - i
  {
    var code := Encoded(ds);
    if i < |code| {
      NotCompleteBefore((ds[0] + 1) % 256, ds, i);
      ReadsThrough(s, k, ds, i + 1);
    } else {
      AllRead(ds);
    }
  }

  lemma AllRead(ds: seq<int>)
    ensures Read(Encoded(ds)).out == ds && Complete(Read(Encoded(ds)), |ds|)
  {
    if ds != [] {
      var st := CoderAt((ds[0] + 1) % 256, ds, |ds|);
      CoderKeeps((ds[0] + 1) % 256, ds, |ds|);
      assert ds[..|ds|] == ds;
      if st.l > -1 {
        ReadAppend(st.out, st.l);
      } else {
        assert st.out + Repeated(st.last, st.l) == st.out;
      }
    }
  }

  // Decoding, from a given place, gives back what was encoded and ends where its code ends,
  // whatever follows
  lemma RoundTrip(s: seq<int>, k: nat, ds: seq<int>)
    requires StandsAt(s, k, Encoded(ds))
    ensures var (r, j) := ReadOn(s, k, Reader(Any, []), |ds|);
            r.out == ds && j == k + |Encoded(ds)|
  {
    ReadsThrough(s, k, ds, 0);
  }

  // ---------------------------------------------------------------- rectangles of the screen

  // display_last_screen has 40 words to a line
  predicate Within(screen: seq<nat>, x: nat, y: nat, w: nat, h: nat) {
    w >= 1 && h >= 1 && x + w <= 40 && 40 * (y + h) <= |screen|
  }

  function ByteOf(word: nat, s: nat): int { Bits.Shr(word, s) % 256 }

  function Row(screen: seq<nat>, x: nat, y: nat, w: nat, s: nat): (ds: seq<int>)
    requires x + w <= 40 && 40 * (y + 1) <= |screen|
    ensures |ds| == w
  {
    seq(w, i requires 0 <= i < w => ByteOf(screen[x + i + 40 * y], s))
  }

  // One of the bytes of every word of a rectangle, line by line
  function Rows(screen: seq<nat>, x: nat, y: nat, w: nat, h: nat, s: nat): (ds: seq<int>)
    requires x + w <= 40 && 40 * (y + h) <= |screen|
  {
    if h == 0 then [] else Rows(screen, x, y, w, h - 1, s) + Row(screen, x, y + h - 1, w, s)
  }

  function Header(x: nat, y: nat, w: nat, h: nat): seq<int> {
    ['$' as int, x, y % 256, y / 256, w, h % 256, h / 256]
  }

  // The lowest bytes of the words, the next ones and so on
  function Planes(screen: seq<nat>, x: nat, y: nat, w: nat, h: nat, n: nat): (planes: seq<seq<int>>)
    requires Within(screen, x, y, w, h)
    ensures |planes| == n
  {
    seq(n, p requires 0 <= p < n => Rows(screen, x, y, w, h, 8 * p))
  }

  function CodesOf(planes: seq<seq<int>>): (codes: seq<seq<int>>)
    ensures AreCodes(codes, planes)
  {
    seq(|planes|, p requires 0 <= p < |planes| => Encoded(planes[p]))
  }

  ghost predicate AreCodes(codes: seq<seq<int>>, planes: seq<seq<int>>) {
    |codes| == |planes|
    && forall p {:trigger Encoded(planes[p])} :: 0 <= p < |planes| ==> codes[p] == Encoded(planes[p])
  }

  // The first n of the codes, one after the other
  function Joined(codes: seq<seq<int>>, n: nat): seq<int>
    requires n <= |codes|
  {
    if n == 0 then [] else Joined(codes, n - 1) + codes[n - 1]
  }

  // The documented format has a third plane, of attributes, with screen type R
  function PlaneCount(kind: int): (n: nat)
    ensures n == 2 || n == 3
  {
    if kind == 'R' as int then 3 else 2
  }

  // What is written for a rectangle
  function SliceOf(screen: seq<nat>, x: nat, y: nat, w: nat, h: nat, n: nat): seq<int>
    requires Within(screen, x, y, w, h)
  {
    Header(x, y, w, h) + Joined(CodesOf(Planes(screen, x, y, w, h, n)), n)
  }

  // ---------------------------------------------------------------- playing a recording

  datatype Picture = Picture(x: nat, y: nat, w: nat, h: nat, planes: seq<seq<int>>)

  // Reading some planes of n bytes each
  function ReadPlanes(s: seq<int>, k: nat, n: nat, count: nat): (p: (seq<seq<int>>, nat))
    requires k <= |s|
    ensures k <= p.1 <= |s| && |p.0| == count
  {
    if count == 0 then ([], k)
    else
      var (planes, j) := ReadPlanes(s, k, n, count - 1);
      var (r, end) := ReadOn(s, j, Reader(Any, []), n);
      (planes + [r.out], end)
  }

  function Size(w: nat, h: nat): nat { w * h }

  predicate IsHeader(s: seq<int>, k: nat) {
    k + 7 <= |s| && s[k] == '$' as int && forall i :: k < i < k + 7 ==> s[i] >= 0
  }

  // Reading what is written for a rectangle of n planes, and where it ends
  function ReadPicture(s: seq<int>, k: nat, n: nat): (p: (Picture, nat))
    requires IsHeader(s, k)
    ensures k + 7 <= p.1 <= |s| && |p.0.planes| == n
  {
    var w, h := s[k + 4], s[k + 5] + 256 * s[k + 6];
    var (planes, end) := ReadPlanes(s, k + 7, Size(w, h), n);
    (Picture(s[k + 1], s[k + 2] + 256 * s[k + 3], w, h, planes), end)
  }

  // Word by word
  lemma {:induction false} RowsAt(screen: seq<nat>, x: nat, y: nat, w: nat, h: nat, s: nat, col: nat, row: nat)
    requires x + w <= 40 && 40 * (y + h) <= |screen| && col < w && row < h
    ensures |Rows(screen, x, y, w, h, s)| == Size(w, h) && Size(w, row) + col < Size(w, h)
    ensures Rows(screen, x, y, w, h, s)[Size(w, row) + col] == ByteOf(screen[x + col + 40 * (y + row)], s)
  {
    RowsLength(screen, x, y, w, h - 1, s);
    AreaGrows(w, h - 1);
    if row < h - 1 {
      RowsAt(screen, x, y, w, h - 1, s, col, row);
    }
  }

  // The planes of the record of a cell are its pixel byte, its attribute and what is above these
  lemma PlanesOfRecord(word: nat)
    ensures ByteOf(word, 0) == Video.WordData(word) && ByteOf(word, 8) == Video.WordAttr(word)
    ensures ByteOf(word, 16) == word / 65536 % 256
  {
    ByteShifted(word);
    ByteShifted(word / 256);
    ShiftedOn(word, 8, 8);
  }

  lemma ByteShifted(v: nat)
    ensures Bits.Shr(v, 8) == v / 256
  {
    ShiftedOn(v, 4, 4);
    NibbleShifted(v);
    NibbleShifted(v / 16);
  }

  lemma NibbleShifted(v: nat)
    ensures Bits.Shr(v, 4) == v / 16
  {
    ShiftedOn(v, 2, 2);
    assert Bits.Shr(v, 2) == v / 2 / 2 == v / 4;
    assert Bits.Shr(v / 4, 2) == v / 4 / 2 / 2 == v / 16;
  }

  lemma {:induction false} ShiftedOn(v: nat, m: nat, n: nat)
    ensures Bits.Shr(v, m + n) == Bits.Shr(Bits.Shr(v, m), n)
  {
    if m > 0 { ShiftedOn(v / 2, m - 1, n); }
  }

  // So a rectangle that is recorded has the pixel bytes and the attributes that its cells were drawn
  // with
  lemma AreaShows(screen: seq<nat>, x: nat, y: nat, w: nat, h: nat, col: nat, row: nat)
    requires Within(screen, x, y, w, h) && col < w && row < h
    ensures |Area(screen, x, y, w, h).picture.planes| == 2
    ensures var planes, word := Area(screen, x, y, w, h).picture.planes, screen[x + col + 40 * (y + row)];
            && Size(w, row) + col < |planes[0]| == |planes[1]|
            && planes[0][Size(w, row) + col] == Video.WordData(word)
            && planes[1][Size(w, row) + col] == Video.WordAttr(word)
  {
    RowsAt(screen, x, y, w, h, 0, col, row);
    RowsAt(screen, x, y, w, h, 8, col, row);
    PlanesOfRecord(screen[x + col + 40 * (y + row)]);
  }

  lemma {:induction false} RowsLength(screen: seq<nat>, x: nat, y: nat, w: nat, h: nat, s: nat)
    requires x + w <= 40 && 40 * (y + h) <= |screen|
    ensures |Rows(screen, x, y, w, h, s)| == Size(w, h)
  {
    if h > 0 {
      RowsLength(screen, x, y, w, h - 1, s);
      AreaGrows(w, h - 1);
    }
  }

  lemma AreaGrows(w: nat, h: nat)
    ensures Size(w, h + 1) == Size(w, h) + w
  {
  }

  lemma StandsPart(s: seq<int>, k: nat, a: seq<int>, b: seq<int>)
    requires StandsAt(s, k, a + b)
    ensures StandsAt(s, k, a) && StandsAt(s, k + |a|, b)
  {
    forall i | 0 <= i < |a| ensures s[k + i] == a[i] { assert (a + b)[i] == a[i]; }
    forall i | 0 <= i < |b| ensures s[k + |a| + i] == b[i] { assert (a + b)[|a| + i] == b[i]; }
  }

  lemma NextPlane(s: seq<int>, k: nat, front: seq<int>, codes: seq<seq<int>>, planes: seq<seq<int>>, p: nat)
    requires AreCodes(codes, planes) && p < |planes| && StandsAt(s, k, front + codes[p])
    ensures StandsAt(s, k, front) && k + |front| <= |s|
    ensures var (r, end) := ReadOn(s, k + |front|, Reader(Any, []), |planes[p]|);
            r.out == planes[p] && end == k + |front + codes[p]|
  {
    var code := Encoded(planes[p]);
    StandsPart(s, k, front, code);
    RoundTrip(s, k + |front|, planes[p]);
  }

  lemma {:induction false} PlanesRoundTrip(s: seq<int>, k: nat, codes: seq<seq<int>>, planes: seq<seq<int>>, n: nat,
                                           size: nat)
    requires AreCodes(codes, planes) && n <= |planes| && forall p :: 0 <= p < |planes| ==> |planes[p]| == size
    requires StandsAt(s, k, Joined(codes, n))
    ensures ReadPlanes(s, k, size, n) == (planes[..n], k + |Joined(codes, n)|)
  {
    if n > 0 {
      NextPlane(s, k, Joined(codes, n - 1), codes, planes, n - 1);
      PlanesRoundTrip(s, k, codes, planes, n - 1, size);
      assert planes[..n] == planes[..n - 1] + [planes[n - 1]];
    }
  }

  // A player that comes to a rectangle finds where it lies and the bytes of its words, and goes
  // on with what follows
  lemma SliceRoundTrip(s: seq<int>, k: nat, screen: seq<nat>, x: nat, y: nat, w: nat, h: nat, n: nat)
    requires Within(screen, x, y, w, h) && StandsAt(s, k, SliceOf(screen, x, y, w, h, n))
    ensures IsHeader(s, k)
    ensures ReadPicture(s, k, n)
         == (Picture(x, y, w, h, Planes(screen, x, y, w, h, n)), k + |SliceOf(screen, x, y, w, h, n)|)
  {
    PlanesFit(screen, x, y, w, h, n);
    RectangleRoundTrip(s, k, Picture(x, y, w, h, Planes(screen, x, y, w, h, n)));
  }

  // The planes of a picture have a byte for every cell
  ghost predicate Fits(p: Picture) { forall i :: 0 <= i < |p.planes| ==> |p.planes[i]| == Size(p.w, p.h) }

  lemma PlanesFit(screen: seq<nat>, x: nat, y: nat, w: nat, h: nat, n: nat)
    requires Within(screen, x, y, w, h)
    ensures Fits(Picture(x, y, w, h, Planes(screen, x, y, w, h, n)))
  {
    forall p | 0 <= p < n ensures |Rows(screen, x, y, w, h, 8 * p)| == Size(w, h) {
      RowsLength(screen, x, y, w, h, 8 * p);
    }
  }

  lemma RectangleRoundTrip(s: seq<int>, k: nat, p: Picture)
    requires Fits(p) && StandsAt(s, k, Header(p.x, p.y, p.w, p.h) + Joined(CodesOf(p.planes), |p.planes|))
    ensures IsHeader(s, k)
    ensures ReadPicture(s, k, |p.planes|)
         == (p, k + |Header(p.x, p.y, p.w, p.h) + Joined(CodesOf(p.planes), |p.planes|)|)
  {
    AfterHeader(s, k, p.x, p.y, p.w, p.h, Joined(CodesOf(p.planes), |p.planes|));
    PlanesRoundTrip(s, k + 7, CodesOf(p.planes), p.planes, |p.planes|, Size(p.w, p.h));
    assert p.planes[..|p.planes|] == p.planes;
  }

  lemma AfterHeader(s: seq<int>, k: nat, x: nat, y: nat, w: nat, h: nat, rest: seq<int>)
    requires StandsAt(s, k, Header(x, y, w, h) + rest)
    ensures IsHeader(s, k) && StandsAt(s, k + 7, rest)
    ensures s[k + 1] == x && s[k + 2] + 256 * s[k + 3] == y && s[k + 4] == w && s[k + 5] + 256 * s[k + 6] == h
  {
    StandsPart(s, k, Header(x, y, w, h), rest);
    HeaderRead(s, k, Header(x, y, w, h));
  }

  lemma HeaderRead(s: seq<int>, k: nat, header: seq<int>)
    requires StandsAt(s, k, header) && |header| == 7
    ensures s[k] == header[0] && s[k + 1] == header[1] && s[k + 2] == header[2] && s[k + 3] == header[3]
    ensures s[k + 4] == header[4] && s[k + 5] == header[5] && s[k + 6] == header[6]
  {
    assert s[k + 0] == header[0];
  }

  // Of the code of ds some has been written, after what was there from the start, and the rest
  // is in the buffer
  ghost predicate Coded(start: seq<int>, written: seq<int>, before: int, ds: seq<int>, l: int, d1: int,
                        buffered: seq<int>) {
    && start <= written && -1 <= l <= 255
    && var coder := CoderAt(before, ds, |ds|);
       coder.l == l && coder.last == d1 && Behind(start, written, buffered, coder.out)
  }

  // Written or buffered, out follows what was there from the start. A proof looks into it only
  // where it names the two together.
  ghost predicate Behind(start: seq<int>, written: seq<int>, buffered: seq<int>, out: seq<int>) {
    forall e: seq<int> {:trigger start + e} :: e == out ==> written + buffered == start + e
  }

  // ---------------------------------------------------------------- the stream

  lemma Append(a: seq<int>, b: seq<int>, c: seq<int>)
    ensures a + b + c == a + (b + c)
  {
  }

  // The settings and the machine when a frame starts: frame rate, screen type and timing
  datatype Setting = Setting(rate: int, kind: int, timing: int)

  datatype Chunk =
    | NewFrame(setting: Setting)
    | Rectangle(picture: Picture)
    | Sound(format: int, freq: nat, stereo: int, frames: nat, data: seq<int>)
    | Over

  // framesiz
  function FrameSize(format: int, stereo: int): nat {
    (if stereo == 'S' as int then 2 else 1) * (if format == 'P' as int then 2 else 1)
  }

  function ChunkText(c: Chunk): (text: seq<int>)
    ensures text != []
  {
    match c
    case NewFrame(setting) => ['N' as int, setting.rate, setting.kind, setting.timing]
    case Rectangle(p) => Header(p.x, p.y, p.w, p.h) + Joined(CodesOf(p.planes), |p.planes|)
    case Sound(format, freq, stereo, frames, data) => SoundHeader(format, freq, stereo, frames) + data
    case Over => ['X' as int]
  }

  function SoundHeader(format: int, freq: nat, stereo: int, frames: nat): seq<int> {
    ['S' as int, format, freq % 256, freq / 256, stereo, (frames - 1) % 256, (frames - 1) / 256]
  }

  lemma LowWord(n: nat)
    ensures n % 0x10000 % 256 == n % 256 && n % 0x10000 / 256 == n / 256 % 256
  {
    var q := n / 0x10000;
    assert n / 256 == 256 * q + n % 0x10000 / 256;
  }

  // Texts one after the other
  function Concat(ts: seq<seq<int>>): seq<int> { if ts == [] then [] else ts[0] + Concat(ts[1..]) }

  lemma {:induction false} ConcatAppend(ts: seq<seq<int>>, t: seq<int>)
    ensures Concat(ts + [t]) == Concat(ts) + t
  {
    if ts == [] {
      assert [t][1..] == [] && Concat([]) == [] && t + [] == t;
    } else {
      assert (ts + [t])[1..] == ts[1..] + [t];
      ConcatAppend(ts[1..], t);
      Append(ts[0], Concat(ts[1..]), t);
    }
  }

  lemma FirstStands(s: seq<int>, k: nat, ts: seq<seq<int>>)
    requires ts != [] && StandsAt(s, k, Concat(ts))
    ensures StandsAt(s, k, ts[0]) && StandsAt(s, k + |ts[0]|, Concat(ts[1..]))
    ensures |Concat(ts)| == |ts[0]| + |Concat(ts[1..])|
  {
    StandsPart(s, k, ts[0], Concat(ts[1..]));
  }

  function Texts(cs: seq<Chunk>): (ts: seq<seq<int>>) {
    seq(|cs|, i requires 0 <= i < |cs| => ChunkText(cs[i]))
  }

  function StreamText(cs: seq<Chunk>): seq<int> { Concat(Texts(cs)) }

  lemma StreamAppend(cs: seq<Chunk>, c: Chunk)
    ensures StreamText(cs + [c]) == StreamText(cs) + ChunkText(c)
  {
    assert Texts(cs + [c]) == Texts(cs) + [ChunkText(c)];
    ConcatAppend(Texts(cs), ChunkText(c));
  }

  // ---------------------------------------------------------------- sound

  // The bytes of a sample: the lower one first, or what the A-Law table has for it
  function SampleBytes(format: int, sample: int, alaw: int -> int): (bytes: seq<int>) {
    if format == 'P' as int then [sample % 256, sample / 256 % 256] else [alaw(sample)]
  }

  function SoundBytes(format: int, samples: seq<int>, alaw: int -> int): seq<int> {
    if samples == [] then []
    else SoundBytes(format, samples[..|samples| - 1], alaw) + SampleBytes(format, samples[|samples| - 1], alaw)
  }

  lemma {:induction false} SoundBytesLength(format: int, samples: seq<int>, alaw: int -> int)
    ensures |SoundBytes(format, samples, alaw)| == if format == 'P' as int then 2 * |samples| else |samples|
  {
    if samples != [] { SoundBytesLength(format, samples[..|samples| - 1], alaw); }
  }

  lemma {:induction false} SoundBytesSplit(format: int, samples: seq<int>, n: nat, alaw: int -> int)
    requires n <= |samples|
    ensures SoundBytes(format, samples, alaw)
         == SoundBytes(format, samples[..n], alaw) + SoundBytes(format, samples[n..], alaw)
  {
    var last := |samples| - 1;
    if n == |samples| {
      assert samples[..n] == samples && samples[n..] == [];
    } else {
      SoundBytesSplit(format, samples[..last], n, alaw);
      assert samples[..last][..n] == samples[..n] && samples[..last][n..] == samples[n..][..last - n];
      Append(SoundBytes(format, samples[..n], alaw), SoundBytes(format, samples[n..][..last - n], alaw),
             SampleBytes(format, samples[last], alaw));
    }
  }

  // The data of sound chunks of this kind, one after the other
  ghost predicate Sounds(cs: seq<Chunk>, format: int, freq: nat, stereo: int, data: seq<int>)
    decreases |cs|
  {
    var n := |cs| - 1;
    if cs == [] then data == []
    else
      && cs[n].Sound? && cs[n].format == format && cs[n].freq == freq && cs[n].stereo == stereo
      && |cs[n].data| <= |data| && data[|data| - |cs[n].data|..] == cs[n].data
      && Sounds(cs[..n], format, freq, stereo, data[..|data| - |cs[n].data|])
  }

  lemma SoundsMore(cs: seq<Chunk>, format: int, freq: nat, stereo: int, data: seq<int>, frames: nat, more: seq<int>)
    requires Sounds(cs, format, freq, stereo, data)
    ensures Sounds(cs + [Sound(format, freq, stereo, frames, more)], format, freq, stereo, data + more)
  {
    var c := Sound(format, freq, stereo, frames, more);
    assert (cs + [c])[..|cs|] == cs && (data + more)[|data|..] == more && (data + more)[..|data|] == data;
  }

  // The chunks hold the first n samples. A proof looks into this only where it names the data.
  ghost predicate Heard(cs: seq<Chunk>, format: int, freq: nat, stereo: int, samples: seq<int>, n: nat,
                        alaw: int -> int)
    requires n <= |samples|
  {
    forall data: seq<int> {:trigger Sounds(cs, format, freq, stereo, data)} ::
      data == SoundBytes(format, samples[..n], alaw) ==> Sounds(cs, format, freq, stereo, data)
  }

  lemma HeardNothing(format: int, freq: nat, stereo: int, samples: seq<int>, alaw: int -> int)
    ensures Heard([], format, freq, stereo, samples, 0, alaw)
  {
  }

  lemma HeardMore(cs: seq<Chunk>, format: int, freq: nat, stereo: int, samples: seq<int>, n: nat, m: nat, frames: nat,
                  alaw: int -> int)
    requires n <= m <= |samples| && Heard(cs, format, freq, stereo, samples, n, alaw)
    ensures var c := Sound(format, freq, stereo, frames, SoundBytes(format, samples[n..m], alaw));
            Heard(cs + [c], format, freq, stereo, samples, m, alaw)
  {
    var before, data := SoundBytes(format, samples[..n], alaw), SoundBytes(format, samples[n..m], alaw);
    assert Sounds(cs, format, freq, stereo, before);
    SoundsMore(cs, format, freq, stereo, before, frames, data);
    assert samples[..m][..n] == samples[..n] && samples[..m][n..] == samples[n..m];
    SoundBytesSplit(format, samples[..m], n, alaw);
  }

  lemma HeardSome(cs: seq<Chunk>, c: Chunk, format: int, freq: nat, stereo: int, samples: seq<int>, n: nat, m: nat,
                  frames: nat, alaw: int -> int)
    requires n <= m <= |samples| && Heard(cs, format, freq, stereo, samples, n, alaw)
    requires c == Sound(format, freq, stereo, frames, SoundBytes(format, samples[n..m], alaw))
    ensures Heard(cs + [c], format, freq, stereo, samples, m, alaw)
    ensures |c.data| == if format == 'P' as int then 2 * (m - n) else m - n
  {
    HeardMore(cs, format, freq, stereo, samples, n, m, frames, alaw);
    SoundBytesLength(format, samples[n..m], alaw);
  }

  lemma HeardAll(cs: seq<Chunk>, format: int, freq: nat, stereo: int, samples: seq<int>, alaw: int -> int)
    requires Heard(cs, format, freq, stereo, samples, |samples|, alaw)
    ensures Sounds(cs, format, freq, stereo, SoundBytes(format, samples, alaw))
  {
    assert samples[..|samples|] == samples;
    var _ := Sounds(cs, format, freq, stereo, SoundBytes(format, samples, alaw));
  }

  // ---------------------------------------------------------------- what is recorded

  lemma Regroup<T>(a: seq<T>, b: seq<T>, c: T)
    ensures a + b + [c] == a + (b + [c])
  {
  }

  // What the recorder writes for a rectangle: two planes, whatever the screen type
  function Area(screen: seq<nat>, x: nat, y: nat, w: nat, h: nat): Chunk
    requires Within(screen, x, y, w, h)
  {
    Rectangle(Picture(x, y, w, h, Planes(screen, x, y, w, h, 2)))
  }

  ghost predicate Recorded(c: Chunk) {
    && (c.Rectangle? ==> |c.picture.planes| == 2 && Fits(c.picture))
    && (c.Sound? ==> 1 <= c.frames && |c.data| == c.frames * FrameSize(c.format, c.stereo))
  }

  // The stream stands for these chunks. A proof looks into it only where it names their text.
  ghost predicate Streamed(of: seq<int>, cs: seq<Chunk>) {
    forall e: seq<Chunk> {:trigger StreamText(e)} :: e == cs ==>
      of == StreamText(e) && forall i :: 0 <= i < |e| ==> Recorded(e[i])
  }

  lemma StreamedMore(of: seq<int>, cs: seq<Chunk>, c: Chunk)
    requires Streamed(of, cs) && Recorded(c)
    ensures Streamed(of + ChunkText(c), cs + [c])
  {
    assert of == StreamText(cs);
    StreamAppend(cs, c);
  }

  // How many planes a player expects: if it goes by the document, those of the screen type
  function Expected(kind: int, document: bool): nat { if document then PlaneCount(kind) else 2 }

  function KindAfter(kind: int, c: Chunk): int { if c.NewFrame? then c.setting.kind else kind }

  // A player reads the chunk at k, and where it ends
  function PlayOne(s: seq<int>, k: nat, n: nat): (r: Option<(Chunk, nat)>)
    requires k < |s|
    ensures r.Some? ==> k < r.value.1 <= |s| && (r.value.0.Rectangle? ==> |r.value.0.picture.planes| == n)
  {
    if s[k] == 'N' as int && k + 4 <= |s| then Some((NewFrame(Setting(s[k + 1], s[k + 2], s[k + 3])), k + 4))
    else if IsHeader(s, k) then
      var (picture, end) := ReadPicture(s, k, n);
      Some((Rectangle(picture), end))
    else if IsSound(s, k) then
      var frames := s[k + 5] + 256 * s[k + 6] + 1;
      var end := k + 7 + frames * FrameSize(s[k + 1], s[k + 4]);
      if end <= |s| then Some((Sound(s[k + 1], s[k + 2] + 256 * s[k + 3], s[k + 4], frames, s[k + 7..end]), end))
      else None
    else if s[k] == 'X' as int then Some((Over, k + 1))
    else None
  }

  predicate IsSound(s: seq<int>, k: nat) {
    k + 7 <= |s| && s[k] == 'S' as int && s[k + 2] >= 0 && s[k + 3] >= 0 && s[k + 5] >= 0 && s[k + 6] >= 0
  }

  // And the whole stream from k on, the screen type being kind there
  function Play(s: seq<int>, k: nat, kind: int, document: bool): Option<seq<Chunk>>
    requires k <= |s|
    decreases |s| - k
  {
    if k == |s| then Some([])
    else
      match PlayOne(s, k, Expected(kind, document))
      case None => None
      case Some((c, end)) =>
        match Play(s, end, KindAfter(kind, c), document)
        case None => None
        case Some(cs) => Some([c] + cs)
  }

  // Every rectangle has the planes that the player expects
  ghost predicate Suits(cs: seq<Chunk>, kind: int, document: bool) {
    cs != [] ==>
      && (cs[0].Rectangle? ==> |cs[0].picture.planes| == Expected(kind, document))
      && Suits(cs[1..], KindAfter(kind, cs[0]), document)
  }

  // No rectangle with screen type R
  ghost predicate NoneHires(cs: seq<Chunk>, kind: int) {
    cs != [] ==> (cs[0].Rectangle? ==> kind != 'R' as int) && NoneHires(cs[1..], KindAfter(kind, cs[0]))
  }

  lemma {:induction false} TwoPlanesSuit(cs: seq<Chunk>, kind: int)
    requires forall i :: 0 <= i < |cs| ==> Recorded(cs[i])
    ensures Suits(cs, kind, false) && (Suits(cs, kind, true) <==> NoneHires(cs, kind))
  {
    if cs != [] { TwoPlanesSuit(cs[1..], KindAfter(kind, cs[0])); }
  }

  lemma ChunkRoundTrip(s: seq<int>, k: nat, c: Chunk, n: nat)
    requires StandsAt(s, k, ChunkText(c)) && Recorded(c) && (c.Rectangle? ==> |c.picture.planes| == n)
    ensures PlayOne(s, k, n) == Some((c, k + |ChunkText(c)|))
  {
    match c
    case NewFrame(setting) => Stands4(s, k, ChunkText(c));
    case Rectangle(p) => RectangleRoundTrip(s, k, p);
    case Sound(format, freq, stereo, frames, data) => SoundRoundTrip(s, k, format, freq, stereo, frames, data);
    case Over => assert s[k + 0] == ChunkText(c)[0];
  }

  lemma Stands4(s: seq<int>, k: nat, text: seq<int>)
    requires StandsAt(s, k, text) && |text| == 4
    ensures s[k] == text[0] && s[k + 1] == text[1] && s[k + 2] == text[2] && s[k + 3] == text[3]
  {
    assert s[k + 0] == text[0];
  }

  lemma SoundRoundTrip(s: seq<int>, k: nat, format: int, freq: nat, stereo: int, frames: nat, data: seq<int>)
    requires StandsAt(s, k, SoundHeader(format, freq, stereo, frames) + data)
    requires 1 <= frames && |data| == frames * FrameSize(format, stereo)
    ensures PlayOne(s, k, 0) == Some((Sound(format, freq, stereo, frames, data), k + 7 + |data|))
  {
    var header := SoundHeader(format, freq, stereo, frames);
    StandsPart(s, k, header, data);
    HeaderRead(s, k, header);
    assert s[k + 7..k + 7 + |data|] == data;
  }

  // What a player makes of a chunk and what follows it
  lemma PlayOn(s: seq<int>, k: nat, cs: seq<Chunk>, kind: int, document: bool, end: nat)
    requires k < |s| && cs != [] && PlayOne(s, k, Expected(kind, document)) == Some((cs[0], end)) && end <= |s|
    requires Play(s, end, KindAfter(kind, cs[0]), document) == Some(cs[1..])
    ensures Play(s, k, kind, document) == Some(cs)
  {
    assert cs == [cs[0]] + cs[1..];
  }

  // All that is to come from k on, and that the player can take. A proof looks into the text only
  // where it names it.
  ghost predicate Ahead(s: seq<int>, k: nat, cs: seq<Chunk>, kind: int, document: bool) {
    && Suits(cs, kind, document)
    && forall e: seq<Chunk> {:trigger Texts(e)} :: e == cs ==>
         && StandsAt(s, k, Concat(Texts(e))) && k + |Concat(Texts(e))| == |s|
         && forall i :: 0 <= i < |e| ==> Recorded(e[i])
  }

  // At k a player reads c, which ends at end. A proof looks into it only where it names the reading.
  ghost predicate Reads(s: seq<int>, k: nat, n: nat, c: Chunk, end: nat) {
    k < |s| && forall e: nat {:trigger PlayOne(s, k, e)} :: e == n ==> PlayOne(s, k, e) == Some((c, end))
  }

  lemma NextAhead(s: seq<int>, k: nat, cs: seq<Chunk>, kind: int, document: bool) returns (end: nat)
    requires Ahead(s, k, cs, kind, document) && cs != []
    ensures Reads(s, k, Expected(kind, document), cs[0], end)
    ensures Ahead(s, end, cs[1..], KindAfter(kind, cs[0]), document)
  {
    end := k + |ChunkText(cs[0])|;
    RestAhead(s, k, cs, kind, document);
    ChunkReads(s, k, cs[0], Expected(kind, document));
  }

  lemma ChunkReads(s: seq<int>, k: nat, c: Chunk, n: nat)
    requires StandsAt(s, k, ChunkText(c)) && Recorded(c) && (c.Rectangle? ==> |c.picture.planes| == n)
    ensures Reads(s, k, n, c, k + |ChunkText(c)|)
  {
    ChunkRoundTrip(s, k, c, n);
  }

  lemma RestAhead(s: seq<int>, k: nat, cs: seq<Chunk>, kind: int, document: bool)
    requires Ahead(s, k, cs, kind, document) && cs != []
    ensures StandsAt(s, k, ChunkText(cs[0])) && Recorded(cs[0])
    ensures cs[0].Rectangle? ==> |cs[0].picture.planes| == Expected(kind, document)
    ensures Ahead(s, k + |ChunkText(cs[0])|, cs[1..], KindAfter(kind, cs[0]), document)
  {
    assert Texts(cs)[1..] == Texts(cs[1..]) && Texts(cs)[0] == ChunkText(cs[0]);
    FirstStands(s, k, Texts(cs));
  }

  lemma NoneAhead(s: seq<int>, k: nat, kind: int, document: bool)
    requires Ahead(s, k, [], kind, document)
    ensures k == |s|
  {
    assert Texts([]) == [];
  }

  // Chunk after chunk a player reads cs from k on
  ghost predicate Comes(s: seq<int>, k: nat, cs: seq<Chunk>, kind: int, document: bool)
    decreases |cs|
  {
    if cs == [] then k == |s|
    else
      exists end: nat {:trigger Reads(s, k, Expected(kind, document), cs[0], end)} ::
        && Reads(s, k, Expected(kind, document), cs[0], end)
        && Comes(s, end, cs[1..], KindAfter(kind, cs[0]), document)
  }

  lemma {:induction false} AllComes(s: seq<int>, k: nat, cs: seq<Chunk>, kind: int, document: bool)
    requires Ahead(s, k, cs, kind, document)
    ensures Comes(s, k, cs, kind, document)
    decreases |cs|
  {
    if cs == [] {
      NoneAhead(s, k, kind, document);
    } else {
      var end := NextAhead(s, k, cs, kind, document);
      AllComes(s, end, cs[1..], KindAfter(kind, cs[0]), document);
    }
  }

  lemma {:induction false} ComesIsPlayed(s: seq<int>, k: nat, cs: seq<Chunk>, kind: int, document: bool)
    requires Comes(s, k, cs, kind, document)
    ensures k <= |s| && Play(s, k, kind, document) == Some(cs)
    decreases |cs|
  {
    if cs != [] {
      var end: nat :|
        && Reads(s, k, Expected(kind, document), cs[0], end)
        && Comes(s, end, cs[1..], KindAfter(kind, cs[0]), document);
      ComesIsPlayed(s, end, cs[1..], KindAfter(kind, cs[0]), document);
      PlayOn(s, k, cs, kind, document, end);
    }
  }

  // What was recorded is played back if every rectangle suits the player
  lemma StreamRoundTrip(cs: seq<Chunk>, kind: int, document: bool)
    requires (forall i :: 0 <= i < |cs| ==> Recorded(cs[i])) && Suits(cs, kind, document)
    ensures Play(StreamText(cs), 0, kind, document) == Some(cs)
  {
    AllComes(StreamText(cs), 0, cs, kind, document);
    ComesIsPlayed(StreamText(cs), 0, cs, kind, document);
  }

  // And no player comes up with rectangles that do not suit it
  lemma {:induction false} PlayedSuits(s: seq<int>, k: nat, cs: seq<Chunk>, kind: int, document: bool)
    requires k <= |s| && Play(s, k, kind, document) == Some(cs)
    ensures Suits(cs, kind, document)
    decreases |cs|
  {
    if k < |s| {
      var (c, end) := PlayOne(s, k, Expected(kind, document)).value;
      var rest := Play(s, end, KindAfter(kind, c), document).value;
      assert cs == [c] + rest && cs[1..] == rest;
      PlayedSuits(s, end, rest, KindAfter(kind, c), document);
    }
  }

  // With screen type R a recording of the screen alone is not played back by the document
  lemma HiresIsLost(screen: seq<nat>)
    requires |screen| == 40 * 240
    ensures var cs := [Area(screen, 0, 0, 40, 240)];
            Play(StreamText(cs), 0, 'R' as int, true) != Some(cs)
  {
    var cs := [Area(screen, 0, 0, 40, 240)];
    if Play(StreamText(cs), 0, 'R' as int, true) == Some(cs) {
      PlayedSuits(StreamText(cs), 0, cs, 'R' as int, true);
    }
  }

  // What has been coded since the start, written or not
  lemma Split(start: seq<int>, written: seq<int>, buffered: seq<int>, out: seq<int>)
    requires start <= written
    ensures Behind(start, written, buffered, out) <==> out == written[|start|..] + buffered
  {
    assert written + buffered == start + (written[|start|..] + buffered);
    if written + buffered == start + out {
      assert (written + buffered)[|start|..] == out && (written + buffered)[|start|..] == written[|start|..] + buffered;
    }
  }

  lemma {:induction false} FirstRow(screen: seq<nat>, x: nat, y: nat, w: nat, h: nat, s: nat)
    requires Within(screen, x, y, w, h)
    ensures Rows(screen, x, y, w, h, s) != [] && Rows(screen, x, y, w, h, s)[0] == ByteOf(screen[x + 40 * y], s)
  {
    if h > 1 {
      FirstRow(screen, x, y, w, h - 1, s);
    } else {
      assert Rows(screen, x, y, w, 0, s) == [];
    }
  }

  lemma NoneCoded(start: seq<int>, before: int, nothing: seq<int>)
    requires nothing == []
    ensures Coded(start, start, before, [], -1, before, nothing)
  {
  }

  lemma StateInRange(before: int, ds: seq<int>, all: seq<int>)
    requires ds <= all && all != [] && all[0] != before
    ensures -1 <= CoderAt(before, ds, |ds|).l <= 255
  {
    CodeIsShort(before, ds, |ds|);
  }

  class Recorder {
    var of: seq<int>                 // what has been written, behind the header of the file
    var recording: bool              // movie_recording
    var paused: bool                 // movie_paused
    var fmfScreen: int               // fmf_screen, which is never given another value

    ghost const first: int           // the screen type in the header of the file
    ghost var chunks: seq<Chunk>     // what that stands for

    ghost predicate Valid()
      reads this
    {
      fmfScreen == 0 && Streamed(of, chunks)
    }

    // The body of the inner loop of movie_compress_area
    static method PutByte(buff: array<int>, b: nat, l: int, d1: int, d: int) returns (b': nat, l': int, d1': int)
      requires b + 2 <= buff.Length && -1 <= l <= 255
      modifies buff
      ensures b <= b' <= b + 2 && buff[..b] == old(buff[..b]) && -1 <= l' <= 255
      ensures forall out: seq<int> :: Push(Coder(l, d1, out), d) == Coder(l', d1', out + buff[b..b'])
    {
      b', l', d1' := b, l, d1;
      if d != d1 {
        if l' > -1 {
          buff[b'] := l';
          b', l' := b' + 1, -1;
        }
        d1' := d;
        buff[b'] := d;
        b' := b' + 1;
      } else if l' >= 0 {
        if l' == 255 {
          buff[b'], buff[b' + 1] := l', d;
          b', l' := b' + 2, -1;
        } else {
          l' := l' + 1;
        }
      } else {
        buff[b'] := d;
        b', l' := b' + 1, l' + 1;
      }
    }

    // The same for the coder that has coded ds
    static method PutNext(buff: array<int>, b: nat, l: int, d1: int, d: int,
                          ghost before: int, ghost ds: seq<int>, ghost out: seq<int>)
      returns (b': nat, l': int, d1': int)
      requires b + 2 <= buff.Length && -1 <= l <= 255
      requires CoderAt(before, ds, |ds|) == Coder(l, d1, out + buff[..b])
      modifies buff
      ensures b <= b' <= b + 2 && -1 <= l' <= 255
      ensures CoderAt(before, ds + [d], |ds + [d]|) == Coder(l', d1', out + buff[..b'])
    {
      ghost var sofar := out + buff[..b];
      CoderAppend(before, ds, d);
      b', l', d1' := PutByte(buff, b, l, d1, d);
      assert sofar + buff[b..b'] == out + buff[..b'];
    }

    // The inner loop of movie_compress_area: one line, from word start on
    static method PutLine(screen: seq<nat>, start: nat, w: nat, s: nat, buff: array<int>, b: nat, l: int, d1: int,
                          ghost line: seq<int>, ghost before: int, ghost ds: seq<int>, ghost out: seq<int>)
      returns (b': nat, l': int, d1': int)
      requires |screen| >= start + w && b + 2 * w <= buff.Length
      requires |line| == w && forall i :: 0 <= i < w ==> line[i] == ByteOf(screen[start + i], s)
      requires ds + line != [] && (ds + line)[0] != before
      requires CoderAt(before, ds, |ds|) == Coder(l, d1, out + buff[..b])
      modifies buff
      ensures b <= b' <= b + 2 * w && -1 <= l' <= 255
      ensures CoderAt(before, ds + line, |ds + line|) == Coder(l', d1', out + buff[..b'])
    {
      b', l', d1' := b, l, d1;
      ghost var done := ds;
      var dpoint := start;
      var w0 := w;
      assert ds + line[..0] == ds;
      while w0 > 0
        invariant 0 <= w0 <= w && dpoint == start + (w - w0) && b <= b' <= b + 2 * (w - w0)
        invariant done == ds + line[..w - w0] && CoderAt(before, done, |done|) == Coder(l', d1', out + buff[..b'])
      {
        var d := ByteOf(screen[dpoint], s);
        StateInRange(before, done, ds + line);
        b', l', d1' := PutNext(buff, b', l', d1', d, before, done, out);
        assert line[..w - w0 + 1] == line[..w - w0] + [d];
        done := done + [d];
        dpoint, w0 := dpoint + 1, w0 - 1;
      }
      assert line[..w] == line;
      StateInRange(before, done, ds + line);
    }

    // movie_compress_area. The buffer is never overrun.
    method CompressArea(screen: seq<nat>, x: nat, y: nat, w: nat, h: nat, s: nat)
      requires Within(screen, x, y, w, h)
      modifies this`of
      ensures of == old(of) + Encoded(Rows(screen, x, y, w, h, s))
    {
      var buff := new int[BUFFER];
      ghost var start := of;
      var first := ByteOf(screen[x + 40 * y], s);
      var b, l, d1 := CompressLines(screen, x, y, w, h, s, (first + 1) % 256, buff);
      FirstRow(screen, x, y, w, h, s);
      WriteRemain(buff, b, l, start, (first + 1) % 256, Rows(screen, x, y, w, h, s), d1);
    }

    // The outer loop of movie_compress_area
    method CompressLines(screen: seq<nat>, x: nat, y: nat, w: nat, h: nat, s: nat, before: int, buff: array<int>)
      returns (b: nat, l: int, d1: int)
      requires Within(screen, x, y, w, h) && buff.Length == BUFFER
      requires before == (ByteOf(screen[x + 40 * y], s) + 1) % 256
      modifies this`of, buff
      ensures b <= BUFFER - 128 && Coded(old(of), of, before, Rows(screen, x, y, w, h, s), l, d1, buff[..b])
    {
      ghost var start := of;
      b, l, d1 := 0, -1, before;
      NoneCoded(start, before, buff[..0]);
      var h0, dline := h, x + 40 * y;
      ghost var n: nat := 0;
      while h0 > 0
        invariant h0 >= 0 && h0 + n == h && dline == x + 40 * (y + n) && b <= BUFFER - 128
        invariant Coded(start, of, before, Rows(screen, x, y, w, n, s), l, d1, buff[..b])
      {
        b, l, d1 := CompressLine(screen, x, y, w, n, s, dline, buff, b, l, d1, start, before);
        h0, dline, n := h0 - 1, dline + 40, n + 1;
      }
    }

    // The body of the outer loop of movie_compress_area, for line number n
    method CompressLine(screen: seq<nat>, ghost x: nat, ghost y: nat, w: nat, ghost n: nat, s: nat, dline: nat,
                        buff: array<int>, b: nat, l: int, d1: int, ghost start: seq<int>, ghost before: int)
      returns (b': nat, l': int, d1': int)
      requires Within(screen, x, y, w, n + 1) && dline == x + 40 * (y + n)
      requires before == (ByteOf(screen[x + 40 * y], s) + 1) % 256
      requires b <= BUFFER - 128 && buff.Length == BUFFER
      requires Coded(start, of, before, Rows(screen, x, y, w, n, s), l, d1, buff[..b])
      modifies this`of, buff
      ensures b' <= BUFFER - 128 && Coded(start, of, before, Rows(screen, x, y, w, n + 1, s), l', d1', buff[..b'])
    {
      ghost var ds, line := Rows(screen, x, y, w, n, s), Row(screen, x, y + n, w, s);
      FirstRow(screen, x, y, w, n + 1, s);
      Split(start, of, buff[..b], CoderAt(before, ds, |ds|).out);
      b', l', d1' := PutLine(screen, dline, w, s, buff, b, l, d1, line, before, ds, of[|start|..]);
      Split(start, of, buff[..b'], of[|start|..] + buff[..b']);
      b' := Flush(buff, b', start, before, ds + line, l', d1');
    }

    // At the end of a line, write the buffer if it is filling up
    method Flush(buff: array<int>, b: nat, ghost start: seq<int>, ghost before: int, ghost ds: seq<int>, ghost l: int,
                 ghost d1: int)
      returns (b': nat)
      requires b <= buff.Length == BUFFER && Coded(start, of, before, ds, l, d1, buff[..b])
      modifies this`of
      ensures b' <= BUFFER - 128 && Coded(start, of, before, ds, l, d1, buff[..b'])
    {
      b' := b;
      if b > BUFFER - 128 {
        assert (of + buff[..b]) + buff[..0] == of + buff[..b];
        of := of + buff[..b];
        b' := 0;
      }
    }

    // The end of movie_compress_area
    method WriteRemain(buff: array<int>, b: nat, l: int, ghost start: seq<int>, ghost before: int, ghost ds: seq<int>,
                       ghost d1: int)
      requires b < buff.Length && Coded(start, of, before, ds, l, d1, buff[..b])
      requires ds != [] && before == (ds[0] + 1) % 256
      modifies this`of, buff
      ensures of == start + Encoded(ds)
    {
      var end := b;
      ghost var was := buff[..b];
      if l > -1 {
        buff[end] := l;
        end := end + 1;
      }
      assert buff[..end] == if l > -1 then was + [l] else was;
      ghost var out := CoderAt(before, ds, |ds|).out;
      if l > -1 {
        Append(of, was, [l]);
        Append(start, out, [l]);
      }
      if end != 0 { of := of + buff[..end]; }
    }

    // movie_start_fmf: the header of the file, which is not part of the stream, and the whole screen
    constructor (screen: seq<nat>, now: Setting)
      requires |screen| == 40 * 240
      ensures Valid() && recording && !paused && first == now.kind && chunks == [Area(screen, 0, 0, 40, 240)]
    {
      of, recording, paused, fmfScreen, first, chunks := [], true, false, 0, now.kind, [];
      new;
      AddArea(screen, 0, 0, 40, 240, now);
    }

    // movie_pause: pause, or go on, with a new frame to be started then
    method Pause()
      requires Valid()
      modifies this`recording, this`paused
      ensures Valid() && chunks == old(chunks)
      ensures if old(recording || paused) then recording != old(recording) && paused
              else recording == old(recording) && paused == old(paused)
    {
      if !paused && !recording { return; }
      recording, paused := !recording, true;
    }

    // movie_stop
    method Stop()
      requires Valid()
      modifies this`of, this`recording, this`paused, this`chunks
      ensures Valid() && !recording && !paused
      ensures chunks == if old(recording || paused) then old(chunks) + [Over] else old(chunks)
    {
      if !paused && !recording { return; }
      StreamedMore(of, chunks, Over);
      of := of + ['X' as int];
      chunks := chunks + [Over];
      recording, paused := false, false;
    }

    // add_sound, the samples being those bytes
    method AddSound(format: int, freq: nat, stereo: int, frames: nat, data: seq<int>)
      requires Valid() && 1 <= frames <= 0x10000 && |data| == frames * FrameSize(format, stereo)
      modifies this`of, this`chunks
      ensures Valid() && chunks == old(chunks) + [Sound(format, freq % 0x10000, stereo, frames, data)]
    {
      var length := frames - 1;
      ghost var c := Sound(format, freq % 0x10000, stereo, frames, data);
      LowWord(freq);
      StreamedMore(of, chunks, c);
      Append(of, SoundHeader(format, c.freq, stereo, frames), data);
      of := of + ['S' as int, format, freq % 256, freq / 256 % 256, stereo, length % 256, length / 256];
      of := of + data;
      chunks := chunks + [c];
    }

    // movie_add_sound, of 16-bit samples, left and right in turn in stereo. Chunks of at most 65536
    // frames hold all of them.
    method AddSamples(format: int, freq: nat, stereo: int, samples: seq<int>, alaw: int -> int)
      returns (ghost added: seq<Chunk>)
      requires Valid() && (format == 'P' as int || format == 'A' as int)
      requires stereo == 'S' as int ==> |samples| % 2 == 0
      modifies this`of, this`chunks
      ensures Valid() && chunks == old(chunks) + added
      ensures Sounds(added, format, freq % 0x10000, stereo, SoundBytes(format, samples, alaw))
    {
      var len, buff := |samples|, 0;
      added := [];
      assert chunks + [] == chunks;
      HeardNothing(format, freq % 0x10000, stereo, samples, alaw);
      while len > 0
        invariant len >= 0 && buff + len == |samples| && (stereo == 'S' as int ==> len % 2 == 0)
        invariant Valid() && chunks == old(chunks) + added
        invariant Heard(added, format, freq % 0x10000, stereo, samples, buff, alaw)
      {
        var frames, taken;
        if stereo == 'S' as int {
          frames := if len > 131072 then 65536 else len / 2;
          taken := if len > 131072 then 131072 else len;
        } else {
          frames := if len > 65536 then 65536 else len;
          taken := frames;
        }
        ghost var c := AddSome(format, freq, stereo, samples, buff, taken, frames, alaw, added);
        Regroup(old(chunks), added, c);
        added := added + [c];
        buff, len := buff + taken, len - taken;
      }
      HeardAll(added, format, freq % 0x10000, stereo, samples, alaw);
    }

    method AddSome(format: int, freq: nat, stereo: int, samples: seq<int>, buff: nat, taken: nat, frames: nat,
                   alaw: int -> int, ghost added: seq<Chunk>)
      returns (ghost c: Chunk)
      requires Valid() && (format == 'P' as int || format == 'A' as int) && buff + taken <= |samples|
      requires 1 <= frames <= 0x10000 && taken == if stereo == 'S' as int then 2 * frames else frames
      requires Heard(added, format, freq % 0x10000, stereo, samples, buff, alaw)
      modifies this`of, this`chunks
      ensures Valid() && chunks == old(chunks) + [c]
      ensures Heard(added + [c], format, freq % 0x10000, stereo, samples, buff + taken, alaw)
    {
      var data := SoundBytes(format, samples[buff..buff + taken], alaw);
      c := Sound(format, freq % 0x10000, stereo, frames, data);
      HeardSome(added, c, format, freq % 0x10000, stereo, samples, buff, buff + taken, frames, alaw);
      AddSound(format, freq, stereo, frames, data);
    }

    // movie_start_frame. After a pause the whole screen follows.
    method StartFrame(screen: seq<nat>, now: Setting)
      requires Valid() && recording && |screen| == 40 * 240
      modifies this`of, this`paused, this`chunks
      ensures Valid() && !paused
      ensures chunks == old(chunks) + [NewFrame(now)] + if old(paused) then [Area(screen, 0, 0, 40, 240)] else []
      decreases paused, 0
    {
      StreamedMore(of, chunks, NewFrame(now));
      of := of + ['N' as int, now.rate, now.kind, now.timing];
      chunks := chunks + [NewFrame(now)];
      assert chunks + [] == chunks;
      if paused {
        paused := false;
        AddArea(screen, 0, 0, 40, 240, now);
      }
    }

    // movie_add_area. The rectangle that ends a pause is part of the screen written then.
    method AddArea(screen: seq<nat>, x: nat, y: nat, w: nat, h: nat, now: Setting)
      requires Valid() && recording && Within(screen, x, y, w, h) && |screen| == 40 * 240
      modifies this`of, this`paused, this`chunks
      ensures Valid() && !paused
      ensures chunks == if old(paused) then old(chunks) + [NewFrame(now)] + [Area(screen, 0, 0, 40, 240)]
                        else old(chunks) + [Area(screen, x, y, w, h)]
      decreases paused, 1
    {
      if paused {
        StartFrame(screen, now);
        return;
      }
      PlanesFit(screen, x, y, w, h, 2);
      StreamedMore(of, chunks, Area(screen, x, y, w, h));
      WriteArea(screen, x, y, w, h);
      chunks := chunks + [Area(screen, x, y, w, h)];
    }

    method WriteArea(screen: seq<nat>, x: nat, y: nat, w: nat, h: nat)
      requires Within(screen, x, y, w, h)
      modifies this`of
      ensures of == old(of) + SliceOf(screen, x, y, w, h, PlaneCount(fmfScreen))
    {
      ghost var start := of + Header(x, y, w, h);
      ghost var planes := Planes(screen, x, y, w, h, PlaneCount(fmfScreen));
      Append(of, Header(x, y, w, h), Joined(CodesOf(planes), |planes|));
      of := of + Header(x, y, w, h);
      assert start == start + Joined(CodesOf(planes), 0);
      CompressPlane(screen, x, y, w, h, 0, planes, start);
      CompressPlane(screen, x, y, w, h, 1, planes, start);
      if fmfScreen == 'R' as int { CompressPlane(screen, x, y, w, h, 2, planes, start); }
    }

    method CompressPlane(screen: seq<nat>, x: nat, y: nat, w: nat, h: nat, p: nat, ghost planes: seq<seq<int>>,
                         ghost start: seq<int>)
      requires Within(screen, x, y, w, h) && p < |planes| && planes[p] == Rows(screen, x, y, w, h, 8 * p)
      requires of == start + Joined(CodesOf(planes), p)
      modifies this`of
      ensures of == start + Joined(CodesOf(planes), p + 1)
    {
      CompressArea(screen, x, y, w, h, 8 * p);
      Append(start, Joined(CodesOf(planes), p), Encoded(planes[p]));
    }

    // A player that takes every rectangle to have two planes gets back all that was recorded. One
    // that goes by the document does if and only if no rectangle was recorded with screen type R.
    lemma Played()
      requires Valid()
      ensures Play(of, 0, first, false) == Some(chunks)
      ensures Play(of, 0, first, true) == Some(chunks) <==> NoneHires(chunks, first)
    {
      assert of == StreamText(chunks);
      TwoPlanesSuit(chunks, first);
      StreamRoundTrip(chunks, first, false);
      if NoneHires(chunks, first) { StreamRoundTrip(chunks, first, true); }
      if Play(of, 0, first, true) == Some(chunks) { PlayedSuits(of, 0, chunks, first, true); }
    }
  }
}
