/** rzx_recording.c: the snapshots taken automatically during a recording, and their thinning
    out as they age. */
module Autosave {

  const INTERVAL: nat := 250

  // A block of the recording: frames of input, or a snapshot
  datatype Block = Input(frames: nat) | Snapshot(automatic: bool)

  // The frames in the first n blocks
  function FramesTo(bs: seq<Block>, n: nat): nat
    requires n <= |bs|
  {
    if n == 0 then 0
    else FramesTo(bs, n - 1) + match bs[n - 1] case Input(f) => f case Snapshot(_) => 0
  }

  // How many frames into the recording the automatic snapshots among them were taken
  function PointsTo(bs: seq<Block>, n: nat): seq<int>
    requires n <= |bs|
  {
    if n == 0 then []
    else if bs[n - 1] == Snapshot(true) then PointsTo(bs, n - 1) + [FramesTo(bs, n - 1)]
    else PointsTo(bs, n - 1)
  }

  // And where they are
  function PlacesTo(bs: seq<Block>, n: nat): (ps: seq<int>)
    requires n <= |bs|
    ensures |ps| == |PointsTo(bs, n)|
    ensures forall i :: 0 <= i < |ps| ==> 0 <= ps[i] < n
  {
    if n == 0 then []
    else if bs[n - 1] == Snapshot(true) then PlacesTo(bs, n - 1) + [n - 1]
    else PlacesTo(bs, n - 1)
  }

  function Frames(bs: seq<Block>): nat { FramesTo(bs, |bs|) }

  function Points(bs: seq<Block>): seq<int> { PointsTo(bs, |bs|) }

  function Places(bs: seq<Block>): (ps: seq<int>)
    ensures |ps| == |Points(bs)|
  {
    PlacesTo(bs, |bs|)
  }

  lemma {:induction false} SameStart(bs: seq<Block>, cs: seq<Block>, n: nat)
    requires n <= |bs| && n <= |cs| && forall i :: 0 <= i < n ==> bs[i] == cs[i]
    ensures FramesTo(bs, n) == FramesTo(cs, n) && PointsTo(bs, n) == PointsTo(cs, n)
    ensures PlacesTo(bs, n) == PlacesTo(cs, n)
  {
    if n > 0 { SameStart(bs, cs, n - 1); }
  }

  lemma BlockAdded(bs: seq<Block>, b: Block)
    ensures Frames(bs + [b]) == Frames(bs) + match b case Input(f) => f case Snapshot(_) => 0
    ensures Points(bs + [b]) == if b == Snapshot(true) then Points(bs) + [Frames(bs)] else Points(bs)
  {
    SameStart(bs, bs + [b], |bs|);
  }

  // ---------------------------------------------------------------- pruning

  // Is a snapshot of this age deleted, the next older one being this old?
  predicate Crowded(age: int, older: int) {
    (age == 15 * 50 || age == 60 * 50 || age == 300 * 50) && older < 2 * age
  }

  // Is block n, an automatic snapshot, deleted?
  predicate Doomed(bs: seq<Block>, n: nat, now: int)
    requires n <= |bs|
  {
    var ps := PointsTo(bs, n);
    ps != [] && Crowded(now - FramesTo(bs, n), now - ps[|ps| - 1])
  }

  // What pruning leaves of the first n blocks
  function PrunedTo(bs: seq<Block>, n: nat, now: int): seq<Block>
    requires n <= |bs|
  {
    if n == 0 then []
    else if bs[n - 1] == Snapshot(true) && Doomed(bs, n - 1, now) then PrunedTo(bs, n - 1, now)
    else PrunedTo(bs, n - 1, now) + [bs[n - 1]]
  }

  function Pruned(bs: seq<Block>, now: int): seq<Block> { PrunedTo(bs, |bs|, now) }

  // And of the first n points
  function PrunedPointsTo(ps: seq<int>, n: nat, now: int): seq<int>
    requires n <= |ps|
  {
    if n == 0 then []
    else if n > 1 && Crowded(now - ps[n - 1], now - ps[n - 2]) then PrunedPointsTo(ps, n - 1, now)
    else PrunedPointsTo(ps, n - 1, now) + [ps[n - 1]]
  }

  function PrunedPoints(ps: seq<int>, now: int): seq<int> { PrunedPointsTo(ps, |ps|, now) }

  lemma {:induction false} SamePoints(ps: seq<int>, qs: seq<int>, n: nat, now: int)
    requires n <= |ps| && n <= |qs| && forall i :: 0 <= i < n ==> ps[i] == qs[i]
    ensures PrunedPointsTo(ps, n, now) == PrunedPointsTo(qs, n, now)
  {
    if n > 0 { SamePoints(ps, qs, n - 1, now); }
  }

  lemma PointAdded(ps: seq<int>, p: int, now: int)
    ensures PrunedPoints(ps + [p], now)
         == if ps != [] && Crowded(now - p, now - ps[|ps| - 1]) then PrunedPoints(ps, now)
            else PrunedPoints(ps, now) + [p]
  {
    SamePoints(ps, ps + [p], |ps|, now);
  }

  // Pruning deletes snapshots only, and leaves the other points where they were
  lemma {:induction false} PrunedKeepsTime(bs: seq<Block>, n: nat, now: int)
    requires n <= |bs|
    ensures Frames(PrunedTo(bs, n, now)) == FramesTo(bs, n)
    ensures Points(PrunedTo(bs, n, now)) == PrunedPoints(PointsTo(bs, n), now)
  {
    if n > 0 {
      PrunedKeepsTime(bs, n - 1, now);
      PrunedKeepsOne(PrunedTo(bs, n - 1, now), bs[n - 1], PointsTo(bs, n - 1), FramesTo(bs, n - 1), now);
    }
  }

  lemma PrunedKeepsOne(kept: seq<Block>, last: Block, ps: seq<int>, frames: nat, now: int)
    requires Frames(kept) == frames && Points(kept) == PrunedPoints(ps, now)
    ensures Frames(kept + [last]) == frames + match last case Input(f) => f case Snapshot(_) => 0
    ensures last != Snapshot(true) ==> Points(kept + [last]) == PrunedPoints(ps, now)
    ensures last == Snapshot(true) ==>
              PrunedPoints(ps + [frames], now)
              == if ps != [] && Crowded(now - frames, now - ps[|ps| - 1]) then Points(kept) else Points(kept + [last])
  {
    BlockAdded(kept, last);
    PointAdded(ps, frames, now);
  }

  // ---------------------------------------------------------------- the closed form

  // Is save number k still there right after save number n - 1 was made?
  predicate Keep(k: nat, n: nat) {
    && k < n
    && var age := INTERVAL * (n - 1 - k);
       age < 750 || (age < 3000 && k % 3 == 0) || (age < 15000 && k % 12 == 0) || k % 60 == 0
  }

  // The numbers below m with a property, in order
  function Filter(p: nat -> bool, m: nat): (ks: seq<int>)
    ensures forall i :: 0 <= i < |ks| ==> 0 <= ks[i] < m
  {
    if m == 0 then [] else if p(m - 1) then Filter(p, m - 1) + [m - 1] else Filter(p, m - 1)
  }

  // The saves still there right after save number n - 1
  function Kept(n: nat): seq<int> { Filter((k: nat) => Keep(k, n), n) }

  // Save number k is made when k + 1 intervals have been recorded since the start
  function Positions(start: int, ks: seq<int>): (ps: seq<int>)
    ensures |ps| == |ks|
  {
    seq(|ks|, i requires 0 <= i < |ks| => start + INTERVAL * (ks[i] + 1))
  }

  lemma PositionsAppend(start: int, ks: seq<int>, k: int)
    ensures Positions(start, ks + [k]) == Positions(start, ks) + [start + INTERVAL * (k + 1)]
  {
  }

  // The saves before the pruning that follows save number n: those kept last time, and it
  function Before(n: nat): nat -> bool { (k: nat) => k == n || Keep(k, n) }

  lemma {:induction false} FilterSame(p: nat -> bool, q: nat -> bool, m: nat)
    requires forall k: nat :: k < m ==> p(k) == q(k)
    ensures Filter(p, m) == Filter(q, m)
  {
    if m > 0 { FilterSame(p, q, m - 1); }
  }

  lemma {:induction false} FilterMeans(p: nat -> bool, m: nat, k: nat)
    ensures k in Filter(p, m) <==> k < m && p(k)
  {
    if m > 0 { FilterMeans(p, m - 1, k); }
  }

  // The last number before k is the one after which none has the property
  lemma {:induction false} LastBefore(p: nat -> bool, k: nat, j: nat)
    requires j < k && p(j) && forall i :: j < i < k ==> !p(i)
    ensures Filter(p, k) != [] && Filter(p, k)[|Filter(p, k)| - 1] == j
  {
    if j < k - 1 {
      assert !p(k - 1);
      LastBefore(p, k - 1, j);
    }
  }

  lemma {:induction false} NoneBefore(p: nat -> bool, k: nat)
    requires forall e: nat :: e < k ==> !p(e)
    ensures Filter(p, k) == []
  {
    if k > 0 { NoneBefore(p, k - 1); }
  }

  // When save number k comes to the age of q intervals, those older are q numbers apart
  predicate Threshold(q: nat) { q == 3 || q == 12 || q == 60 }

  lemma OlderAreMultiples(n: nat, k: nat, q: nat, j: nat)
    requires Threshold(q) && k <= n && n - k == q && k - q <= j < k
    ensures Keep(j, n) <==> j % q == 0
  {
    KeepInIntervals(j, n);
    Divisors(j);
  }

  lemma Divisors(k: nat)
    ensures k % 60 == 0 ==> k % 12 == 0
    ensures k % 12 == 0 ==> k % 3 == 0
  {
    if k % 60 == 0 {
      var t := k / 60;
      assert k == 12 * (5 * t);
    }
    if k % 12 == 0 {
      var t := k / 12;
      assert k == 3 * (4 * t);
    }
  }

  // The ages counted in intervals
  lemma KeepInIntervals(k: nat, n: nat)
    requires k < n
    ensures var d := n - 1 - k;
            Keep(k, n) <==> d < 3 || (d < 12 && k % 3 == 0) || (d < 60 && k % 12 == 0) || k % 60 == 0
  {
  }

  // The multiple of q next below k
  lemma NextMultiple(k: nat, q: nat, j: nat)
    requires Threshold(q) && k - q <= j < k
    ensures j % q == 0 <==> j == k - (if k % q == 0 then q else k % q)
  {
  }

  // Is save number k deleted when save number n has been made and p says which were there?
  predicate Deleted(p: nat -> bool, n: nat, k: nat)
    requires k <= n
  {
    var older := Filter(p, k);
    older != [] && Crowded(INTERVAL * (n - k), INTERVAL * (n - older[|older| - 1]))
  }

  // At such an age pruning deletes save number k unless q divides k
  lemma DeletedUnlessMultiple(n: nat, k: nat, q: nat)
    requires Threshold(q) && k <= n && n - k == q
    ensures Deleted(Before(n), n, k) <==> k % q != 0
  {
    var d := if k % q == 0 then q else k % q;
    var p := Before(n);
    forall j: nat | k - q <= j < k ensures p(j) <==> j == k - d {
      OlderAreMultiples(n, k, q, j);
      NextMultiple(k, q, j);
    }
    LastOlder(p, n, k, q, d);
  }

  lemma LastOlder(p: nat -> bool, n: nat, k: nat, q: nat, d: nat)
    requires Threshold(q) && k <= n && n - k == q && 0 < d <= q
    requires forall j: nat :: k - q <= j < k ==> (p(j) <==> j == k - d)
    ensures Deleted(p, n, k) <==> d < q && d <= k
  {
    if d <= k {
      LastBefore(p, k, k - d);
    } else {
      NoneBefore(p, k);
    }
  }

  // What becomes of save number k when save number n has been made
  lemma FateOfSave(n: nat, k: nat)
    requires k <= n && Before(n)(k)
    ensures Keep(k, n + 1) <==> !Deleted(Before(n), n, k)
  {
    if n - k == 3 || n - k == 12 || n - k == 60 {
      DeletedUnlessMultiple(n, k, n - k);
    }
    Divisors(k);
  }

  lemma PruneOne(start: nat, n: nat, k: nat, older: seq<int>, left: seq<int>)
    requires k <= n && PrunedPoints(Positions(start, older), start + INTERVAL * (n + 1)) == Positions(start, left)
    ensures PrunedPoints(Positions(start, older + [k]), start + INTERVAL * (n + 1))
         == if older != [] && Crowded(INTERVAL * (n - k), INTERVAL * (n - older[|older| - 1]))
            then Positions(start, left)
            else Positions(start, left + [k])
  {
    PositionsAppend(start, older, k);
    PositionsAppend(start, left, k);
    PointAdded(Positions(start, older), start + INTERVAL * (k + 1), start + INTERVAL * (n + 1));
  }

  // Pruning a list of saves leaves those that are not deleted
  lemma {:induction false} PruneFilter(start: nat, n: nat, was: nat -> bool, now: nat -> bool, m: nat)
    requires m <= n + 1
    requires forall k: nat {:trigger Deleted(was, n, k)} :: k < m ==> (now(k) <==> was(k) && !Deleted(was, n, k))
    ensures PrunedPoints(Positions(start, Filter(was, m)), start + INTERVAL * (n + 1))
         == Positions(start, Filter(now, m))
  {
    if m > 0 {
      var k := m - 1;
      PruneFilter(start, n, was, now, k);
      var _ := Deleted(was, n, k);
      if was(k) {
        PruneOne(start, n, k, Filter(was, k), Filter(now, k));
      }
    }
  }

  // Pruning right after save number n turns the one closed form into the next
  lemma PruneStep(start: nat, n: nat)
    ensures PrunedPoints(Positions(start, Kept(n) + [n]), start + INTERVAL * (n + 1)) == Positions(start, Kept(n + 1))
  {
    var now: nat -> bool := (k: nat) => Keep(k, n + 1);
    FilterSame(Before(n), (k: nat) => Keep(k, n), n);
    var was := Before(n);
    forall k: nat {:trigger Deleted(was, n, k)} | k < n + 1 ensures now(k) <==> was(k) && !Deleted(was, n, k) {
      if was(k) { FateOfSave(n, k); } else { NotKeptAgain(n, k); }
    }
    PruneFilter(start, n, was, now, n + 1);
  }

  lemma NotKeptAgain(n: nat, k: nat)
    requires k < n && !Keep(k, n)
    ensures !Keep(k, n + 1)
  {
  }

  // In plain words: which saves there are right after save number n - 1
  lemma KeptMeansKeep(n: nat, k: nat)
    ensures k in Kept(n) <==> k < n && Keep(k, n)
  {
    FilterMeans((i: nat) => Keep(i, n), n, k);
  }

  // ---------------------------------------------------------------- the recording

  // Nothing is deleted from a stretch without automatic snapshots
  lemma {:induction false} PrunedGap(bs: seq<Block>, lo: nat, hi: nat, now: int)
    requires lo <= hi <= |bs| && forall j :: lo <= j < hi ==> bs[j] != Snapshot(true)
    ensures PrunedTo(bs, hi, now) == PrunedTo(bs, lo, now) + bs[lo..hi]
  {
    if lo < hi {
      PrunedGap(bs, lo, hi - 1, now);
      assert bs[lo..hi] == bs[lo..hi - 1] + [bs[hi - 1]];
    }
  }

  // What is in front of the i-th automatic snapshot
  lemma {:induction false} PointAt(bs: seq<Block>, n: nat, i: nat)
    requires n <= |bs| && i < |PlacesTo(bs, n)|
    ensures PointsTo(bs, PlacesTo(bs, n)[i]) == PointsTo(bs, n)[..i]
    ensures FramesTo(bs, PlacesTo(bs, n)[i]) == PointsTo(bs, n)[i]
  {
    if i < |PlacesTo(bs, n - 1)| { PointAt(bs, n - 1, i); }
  }

  // From the i-th automatic snapshot to the next there is no other
  lemma {:induction false} GapAfter(bs: seq<Block>, n: nat, i: nat)
    requires n <= |bs| && i < |PlacesTo(bs, n)|
    ensures var ps := PlacesTo(bs, n);
            && bs[ps[i]] == Snapshot(true)
            && (i + 1 < |ps| ==> ps[i] < ps[i + 1])
            && forall j :: ps[i] < j < (if i + 1 < |ps| then ps[i + 1] else n) ==> bs[j] != Snapshot(true)
  {
    if i < |PlacesTo(bs, n - 1)| { GapAfter(bs, n - 1, i); }
  }

  lemma {:induction false} NoneBeforeFirst(bs: seq<Block>, n: nat)
    requires n <= |bs|
    ensures forall j :: 0 <= j < (if PlacesTo(bs, n) == [] then n else PlacesTo(bs, n)[0]) ==> bs[j] != Snapshot(true)
  {
    if n > 0 { NoneBeforeFirst(bs, n - 1); }
  }

  // The blocks from c on have been dealt with, and those before it are untouched
  ghost predicate DoneFrom(bs: seq<Block>, blocks: seq<Block>, c: int, now: int) {
    0 <= c <= |bs| && c <= |blocks| && blocks[..c] == bs[..c] && Pruned(bs, now) == PrunedTo(bs, c, now) + blocks[c..]
  }

  lemma DoneGap(bs: seq<Block>, blocks: seq<Block>, lo: nat, hi: nat, now: int)
    requires DoneFrom(bs, blocks, hi, now) && lo <= hi && forall j :: lo <= j < hi ==> bs[j] != Snapshot(true)
    ensures DoneFrom(bs, blocks, lo, now)
  {
    PrunedGap(bs, lo, hi, now);
    assert blocks[..lo] == blocks[..hi][..lo] && bs[..lo] == bs[..hi][..lo];
    assert blocks[lo..] == bs[lo..hi] + blocks[hi..] by {
      assert blocks[lo..hi] == blocks[..hi][lo..] && bs[lo..hi] == bs[..hi][lo..];
    }
    assert PrunedTo(bs, lo, now) + bs[lo..hi] + blocks[hi..] == PrunedTo(bs, lo, now) + (bs[lo..hi] + blocks[hi..]);
  }

  lemma DoneSnapshot(bs: seq<Block>, blocks: seq<Block>, p: nat, now: int)
    requires p < |bs| && bs[p] == Snapshot(true) && DoneFrom(bs, blocks, p + 1, now)
    ensures DoneFrom(bs, if Doomed(bs, p, now) then blocks[..p] + blocks[p + 1..] else blocks, p, now)
  {
    assert blocks[..p] == blocks[..p + 1][..p] && bs[..p] == bs[..p + 1][..p];
    assert blocks[p] == blocks[..p + 1][p] && bs[p] == bs[..p + 1][p];
    assert blocks[p..] == [bs[p]] + blocks[p + 1..];
  }

  lemma DoneBlock(bs: seq<Block>, blocks: seq<Block>, lo: nat, p: nat, now: int)
    requires lo <= p < |bs| && bs[p] == Snapshot(true) && DoneFrom(bs, blocks, p + 1, now)
    requires forall j :: lo <= j < p ==> bs[j] != Snapshot(true)
    ensures DoneFrom(bs, if Doomed(bs, p, now) then blocks[..p] + blocks[p + 1..] else blocks, lo, now)
  {
    DoneSnapshot(bs, blocks, p, now);
    DoneGap(bs, if Doomed(bs, p, now) then blocks[..p] + blocks[p + 1..] else blocks, lo, p, now);
  }

  lemma DoomedAt(bs: seq<Block>, i: nat, now: int)
    requires i < |Places(bs)|
    ensures Doomed(bs, Places(bs)[i], now) == (i > 0 && Crowded(now - Points(bs)[i], now - Points(bs)[i - 1]))
  {
    PointAt(bs, |bs|, i);
  }

  lemma OldestStays(bs: seq<Block>, blocks: seq<Block>, now: int)
    requires |Places(bs)| > 0 && DoneFrom(bs, blocks, Places(bs)[0] + 1, now)
    ensures blocks == Pruned(bs, now)
  {
    DoomedAt(bs, 0, now);
    GapAfter(bs, |bs|, 0);
    NoneBeforeFirst(bs, |bs|);
    DoneBlock(bs, blocks, 0, Places(bs)[0], now);
  }

  lemma NewestFirst(bs: seq<Block>, now: int)
    requires |Places(bs)| > 0
    ensures DoneFrom(bs, bs, Places(bs)[|Places(bs)| - 1] + 1, now)
  {
    GapAfter(bs, |bs|, |Places(bs)| - 1);
    DoneGap(bs, bs, Places(bs)[|Places(bs)| - 1] + 1, |bs|, now);
  }

  lemma FrameAdded(bs: seq<Block>)
    requires bs != [] && bs[|bs| - 1].Input?
    ensures var after := bs[|bs| - 1 := Input(bs[|bs| - 1].frames + 1)];
            Frames(after) == Frames(bs) + 1 && Points(after) == Points(bs)
  {
    SameStart(bs, bs[|bs| - 1 := Input(bs[|bs| - 1].frames + 1)], |bs| - 1);
  }

  lemma SavedPoints(bs: seq<Block>, start: nat, n: nat)
    requires Frames(bs) == start + INTERVAL * (n + 1) && Points(bs) == Positions(start, Kept(n))
    ensures var saved := bs + [Snapshot(true)] + [Input(0)];
            Frames(saved) == start + INTERVAL * (n + 1) && Points(saved) == Positions(start, Kept(n) + [n])
  {
    BlockAdded(bs, Snapshot(true));
    BlockAdded(bs + [Snapshot(true)], Input(0));
    PositionsAppend(start, Kept(n), n);
  }

  lemma LastStays(bs: seq<Block>, now: int)
    requires bs != [] && bs[|bs| - 1].Input?
    ensures Pruned(bs, now) != [] && Pruned(bs, now)[|Pruned(bs, now)| - 1] == bs[|bs| - 1]
  {
  }

  // The snapshot and the new input block of an autosave, pruned
  lemma SaveAndPrune(bs: seq<Block>, start: nat, n: nat)
    requires Frames(bs) == start + INTERVAL * (n + 1) && Points(bs) == Positions(start, Kept(n))
    ensures var now := start + INTERVAL * (n + 1);
            var saved := bs + [Snapshot(true)] + [Input(0)];
            Frames(saved) == now && Points(saved) != []
            && Frames(Pruned(saved, now)) == now && Points(Pruned(saved, now)) == Positions(start, Kept(n + 1))
            && Pruned(saved, now) != [] && Pruned(saved, now)[|Pruned(saved, now)| - 1] == Input(0)
  {
    var now := start + INTERVAL * (n + 1);
    var saved := bs + [Snapshot(true)] + [Input(0)];
    SavedPoints(bs, start, n);
    LastStays(saved, now);
    PrunedKeepsTime(saved, |saved|, now);
    PruneStep(start, n);
  }

  datatype PruneInfo = PruneInfo(place: int, frames: int)

  class Recording {
    var blocks: seq<Block>
    var autosaveFrameCount: nat
    var autosavePending: bool

    ghost var start: nat             // frames recorded before autosaving began
    ghost var saves: nat             // automatic snapshots taken since

    // autosave_prune, right after a snapshot was added
    method Prune()
      requires Points(blocks) != []
      modifies this`blocks
      ensures blocks == Pruned(old(blocks), Frames(old(blocks)))
    {
      ghost var bs := blocks;
      var autosaves, frames := Survey();
      autosaves := Ages(autosaves, frames);
      NewestFirst(bs, frames);
      var i := |autosaves| - 1;
      while i > 0
        invariant 0 <= i < |Places(bs)| && DoneFrom(bs, blocks, Places(bs)[i] + 1, frames)
      {
        Thin(bs, i, frames, autosaves[i], autosaves[i - 1]);
        i := i - 1;
      }
      OldestStays(bs, blocks, frames);
    }

    // The body of the last loop of autosave_prune
    method Thin(ghost bs: seq<Block>, ghost i: nat, ghost now: nat, save1: PruneInfo, save2: PruneInfo)
      requires 0 < i < |Places(bs)| && DoneFrom(bs, blocks, Places(bs)[i] + 1, now)
      requires save1 == PruneInfo(Places(bs)[i], now - Points(bs)[i]) && save2.frames == now - Points(bs)[i - 1]
      modifies this`blocks
      ensures DoneFrom(bs, blocks, Places(bs)[i - 1] + 1, now)
    {
      DoomedAt(bs, i, now);
      GapAfter(bs, |bs|, i);
      GapAfter(bs, |bs|, i - 1);
      DoneBlock(bs, blocks, Places(bs)[i - 1] + 1, Places(bs)[i], now);
      if Crowded(save1.frames, save2.frames) {
        blocks := blocks[..save1.place] + blocks[save1.place + 1..];
      }
    }

    // Convert time from start into time before now
    static method Ages(autosaves: seq<PruneInfo>, frames: nat) returns (ages: seq<PruneInfo>)
      ensures |ages| == |autosaves|
      ensures forall j :: 0 <= j < |ages| ==> ages[j] == PruneInfo(autosaves[j].place, frames - autosaves[j].frames)
    {
      ages := autosaves;
      var i := 0;
      while i < |ages|
        invariant i <= |ages| == |autosaves|
        invariant forall j :: i <= j < |ages| ==> ages[j] == autosaves[j]
        invariant forall j :: 0 <= j < i ==> ages[j] == PruneInfo(autosaves[j].place, frames - autosaves[j].frames)
      {
        ages := ages[i := ages[i].(frames := frames - ages[i].frames)];
        i := i + 1;
      }
    }

    // The first loop of autosave_prune
    method Survey() returns (autosaves: seq<PruneInfo>, frames: nat)
      ensures frames == Frames(blocks) && |autosaves| == |Places(blocks)|
      ensures forall j :: 0 <= j < |autosaves| ==> autosaves[j] == PruneInfo(Places(blocks)[j], Points(blocks)[j])
    {
      autosaves, frames := [], 0;
      var it := 0;
      while it < |blocks|
        invariant it <= |blocks| && frames == FramesTo(blocks, it) && |autosaves| == |PlacesTo(blocks, it)|
        invariant forall j :: 0 <= j < |autosaves| ==>
                    autosaves[j] == PruneInfo(PlacesTo(blocks, it)[j], PointsTo(blocks, it)[j])
      {
        match blocks[it] {
          case Input(n) => frames := frames + n;
          case Snapshot(automatic) =>
            if automatic { autosaves := autosaves + [PruneInfo(it, frames)]; }
        }
        it := it + 1;
      }
    }

    // Between frames of a recording in competition mode or not, with autosaving on: the
    // automatic snapshots are those of the closed form
    ghost predicate Valid()
      reads this
    {
      && blocks != [] && blocks[|blocks| - 1].Input?
      && Frames(blocks) == start + autosaveFrameCount
      && INTERVAL * (saves + if autosavePending then 1 else 0) <= autosaveFrameCount
      && autosaveFrameCount < INTERVAL * (saves + 1 + if autosavePending then 1 else 0)
      && (autosavePending ==> autosaveFrameCount == INTERVAL * (saves + 1))
      && Points(blocks) == Positions(start, Kept(saves))
    }

    // start_recording, on top of what was recorded without autosaves
    constructor (before: seq<Block>)
      requires Points(before) == []
      ensures Valid() && saves == 0 && !autosavePending && blocks == before + [Input(0)] && start == Frames(before)
    {
      BlockAdded(before, Input(0));
      blocks := before + [Input(0)];
      autosaveFrameCount, autosavePending := 0, false;
      start, saves := Frames(before), 0;
    }

    // rzx_recording_frame with autosave_frame
    method StoreFrame()
      requires Valid() && !autosavePending
      modifies this`blocks, this`autosaveFrameCount, this`autosavePending
      ensures Valid() && autosaveFrameCount == old(autosaveFrameCount) + 1
      ensures autosavePending <==> autosaveFrameCount % INTERVAL == 0
    {
      var last := |blocks| - 1;
      FrameAdded(blocks);
      blocks := blocks[last := Input(blocks[last].frames + 1)];
      autosaveFrameCount := autosaveFrameCount + 1;
      if autosaveFrameCount % INTERVAL == 0 {
        autosavePending := true;
      }
    }

    // rzx_frame_interrupt_complete; deferred says that EI postpones the interrupt. Right
    // after the snapshot is taken, the snapshots there are exactly those to be kept.
    method InterruptComplete(deferred: bool)
      requires Valid()
      modifies this`blocks, this`autosavePending, this`saves
      ensures Valid()
      ensures if old(autosavePending) && !deferred
              then !autosavePending && saves == old(saves) + 1 && Frames(blocks) == start + INTERVAL * saves
              else blocks == old(blocks) && saves == old(saves) && autosavePending == old(autosavePending)
      ensures Points(blocks) == Positions(start, Kept(saves))
    {
      if !autosavePending || deferred { return; }
      autosavePending := false;
      SaveAndPrune(blocks, start, saves);
      AddSnapshot();
      Prune();
      saves := saves + 1;
    }

    // The snapshot, and the input block after it
    method AddSnapshot()
      modifies this`blocks
      ensures blocks == old(blocks) + [Snapshot(true)] + [Input(0)]
    {
      blocks := blocks + [Snapshot(true)];
      blocks := blocks + [Input(0)];
    }

    // autosave_reset, after a rollback: the next autosave falls due as if the frames since
    // the last automatic snapshot had just been recorded
    method AutosaveReset()
      modifies this`autosaveFrameCount
      ensures autosaveFrameCount
           == (Frames(blocks) - if Points(blocks) == [] then 0 else Points(blocks)[|Points(blocks)| - 1]) % INTERVAL
    {
      var frames, it := 0, 0;
      while it < |blocks|
        invariant it <= |blocks|
        invariant var ps := PointsTo(blocks, it);
                  0 <= frames == FramesTo(blocks, it) - if ps == [] then 0 else ps[|ps| - 1]
      {
        match blocks[it] {
          case Input(n) => frames := frames + n;
          case Snapshot(automatic) => if automatic { frames := 0; }
        }
        it := it + 1;
      }
      autosaveFrameCount := frames % INTERVAL;
    }
  }
}
