/** tape_record.c: recording what is sent to the tape, and tape_block.c: counting its pulses. */
module TapeRecord {

  const BUFFER_SIZE: nat := 8192     // TAPE_RECORDING_BUFFER_SIZE
  const LIMIT: nat := 0x8000_0000    // last_level_count is an int

  // ---------------------------------------------------------------- the code

  // A run length of 1 to 255 is one byte, a longer one 0 and four bytes, the lowest first
  function Encoded(run: nat): (code: seq<int>)
    ensures |code| == 1 || |code| == 5
  {
    if run <= 255 then [run]
    else [0, run % 256, run / 256 % 256, run / 65536 % 256, run / 16777216 % 256]
  }

  datatype Expecting = Length | Dword(left: nat, value: int, weight: int)

  datatype Reader = Reader(expecting: Expecting, runs: seq<int>)

  function Feed(r: Reader, b: int): Reader {
    match r.expecting
    case Length => if b != 0 then r.(runs := r.runs + [b]) else r.(expecting := Dword(4, 0, 1))
    case Dword(left, value, weight) =>
      var v := value + weight * b;
      if left <= 1 then Reader(Length, r.runs + [v]) else r.(expecting := Dword(left - 1, v, 256 * weight))
  }

  function ReadTo(data: seq<int>, n: nat): Reader
    requires n <= |data|
  {
    if n == 0 then Reader(Length, []) else Feed(ReadTo(data, n - 1), data[n - 1])
  }

  function Read(data: seq<int>): Reader { ReadTo(data, |data|) }

  lemma {:induction false} ReadSame(data: seq<int>, other: seq<int>, n: nat)
    requires n <= |data| && n <= |other| && forall i :: 0 <= i < n ==> data[i] == other[i]
    ensures ReadTo(data, n) == ReadTo(other, n)
  {
    if n > 0 { ReadSame(data, other, n - 1); }
  }

  lemma ReadAppend(data: seq<int>, b: int)
    ensures Read(data + [b]) == Feed(Read(data), b)
  {
    ReadSame(data, data + [b], |data|);
  }

  // A run is read back
  lemma RunReadBack(data: seq<int>, runs: seq<int>, run: nat)
    requires Read(data) == Reader(Length, runs) && 0 < run < LIMIT
    ensures Read(data + Encoded(run)) == Reader(Length, runs + [run])
  {
    if run <= 255 {
      ReadAppend(data, run);
    } else {
      var b0, b1, b2, b3 := run % 256, run / 256 % 256, run / 65536 % 256, run / 16777216 % 256;
      ReadAppend(data, 0);
      ReadAppend(data + [0], b0);
      ReadAppend(data + [0] + [b0], b1);
      ReadAppend(data + [0] + [b0] + [b1], b2);
      ReadAppend(data + [0] + [b0] + [b1] + [b2], b3);
      assert data + Encoded(run) == data + [0] + [b0] + [b1] + [b2] + [b3];
      BytesOfRun(run);
    }
  }

  lemma BytesOfRun(run: nat)
    requires run < LIMIT
    ensures run % 256 + 256 * (run / 256 % 256) + 65536 * (run / 65536 % 256) + 16777216 * (run / 16777216 % 256) == run
  {
    assert run / 65536 == run / 256 / 256;
    assert run / 16777216 == run / 65536 / 256;
  }

  // ---------------------------------------------------------------- what is recorded

  // The lengths of the runs of equal levels among the first n
  function Runs(levels: seq<int>, n: nat): (runs: seq<int>)
    requires 0 < n <= |levels|
    ensures runs != []
  {
    if n == 1 then [1]
    else
      var runs := Runs(levels, n - 1);
      var last := |runs| - 1;
      if levels[n - 1] == levels[n - 2] then runs[last := runs[last] + 1] else runs + [1]
  }

  function Sum(runs: seq<int>): int {
    if runs == [] then 0 else Sum(runs[..|runs| - 1]) + runs[|runs| - 1]
  }

  // Every sample is in one run
  lemma {:induction false} RunsCoverAll(levels: seq<int>, n: nat)
    requires 0 < n <= |levels|
    ensures Sum(Runs(levels, n)) == n && forall i :: 0 <= i < |Runs(levels, n)| ==> 0 < Runs(levels, n)[i] <= n
  {
    if n == 1 {
      assert [1][..0] == [];
      assert Sum([1]) == Sum([]) + 1;
    } else {
      RunsCoverAll(levels, n - 1);
      var runs := Runs(levels, n - 1);
      var last := |runs| - 1;
      assert (runs + [1])[..|runs|] == runs;
      assert runs[last := runs[last] + 1][..last] == runs[..last];
    }
  }

  // The samples of a signal of two levels, from its first one and the lengths of its runs
  function Signal(first: int, runs: seq<int>, n: nat): seq<int>
    requires n <= |runs|
  {
    if n == 0 then [] else Signal(first, runs, n - 1) + Steady(LevelOf(first, n - 1), runs[n - 1])
  }

  function LevelOf(first: int, run: nat): int { if run % 2 == 0 then first else 1 - first }

  function Steady(level: int, n: int): seq<int> { if n <= 0 then [] else Steady(level, n - 1) + [level] }

  lemma {:induction false} SignalSame(first: int, runs: seq<int>, other: seq<int>, n: nat)
    requires n <= |runs| && n <= |other| && runs[..n] == other[..n]
    ensures Signal(first, runs, n) == Signal(first, other, n)
  {
    if n > 0 {
      assert runs[..n - 1] == runs[..n][..n - 1] && other[..n - 1] == other[..n][..n - 1];
      assert runs[n - 1] == runs[..n][n - 1] && other[n - 1] == other[..n][n - 1];
      SignalSame(first, runs, other, n - 1);
    }
  }

  lemma RunLonger(first: int, runs: seq<int>)
    requires runs != [] && runs[|runs| - 1] >= 0
    ensures var last := |runs| - 1;
            Signal(first, runs[last := runs[last] + 1], |runs|) == Signal(first, runs, |runs|) + [LevelOf(first, last)]
  {
    var last := |runs| - 1;
    var longer := runs[last := runs[last] + 1];
    SignalSame(first, runs, longer, last);
    var s, t, level := Signal(first, runs, last), Steady(LevelOf(first, last), runs[last]), LevelOf(first, last);
    assert s + (t + [level]) == s + t + [level];
  }

  lemma RunNew(first: int, runs: seq<int>)
    ensures Signal(first, runs + [1], |runs| + 1) == Signal(first, runs, |runs|) + [LevelOf(first, |runs|)]
  {
    SignalSame(first, runs, runs + [1], |runs|);
    assert Steady(LevelOf(first, |runs|), 0) == [];
  }

  // Nothing is lost of such a signal
  lemma {:induction false} SignalFromRuns(levels: seq<int>, n: nat)
    requires 0 < n <= |levels| && forall i :: 0 <= i < |levels| ==> levels[i] == 0 || levels[i] == 1
    ensures var runs := Runs(levels, n);
            Signal(levels[0], runs, |runs|) == levels[..n] && levels[n - 1] == LevelOf(levels[0], |runs| - 1)
  {
    if n == 1 {
      SignalOfOne(levels[0]);
      assert levels[..1] == [levels[0]];
    } else {
      SignalFromRuns(levels, n - 1);
      RunsCoverAll(levels, n - 1);
      SampleAdded(levels, n, Runs(levels, n - 1));
    }
  }

  lemma SampleAdded(levels: seq<int>, n: nat, runs: seq<int>)
    requires 1 < n <= |levels| && (levels[n - 1] == 0 || levels[n - 1] == 1)
    requires (levels[n - 2] == 0 || levels[n - 2] == 1)
    requires runs == Runs(levels, n - 1) && runs[|runs| - 1] >= 0
    requires Signal(levels[0], runs, |runs|) == levels[..n - 1] && levels[n - 2] == LevelOf(levels[0], |runs| - 1)
    ensures var runs := Runs(levels, n);
            Signal(levels[0], runs, |runs|) == levels[..n] && levels[n - 1] == LevelOf(levels[0], |runs| - 1)
  {
    var last := |runs| - 1;
    assert levels[..n] == levels[..n - 1] + [levels[n - 1]];
    if levels[n - 1] == levels[n - 2] {
      RunLonger(levels[0], runs);
      assert Runs(levels, n) == runs[last := runs[last] + 1];
    } else {
      RunNew(levels[0], runs);
      assert Runs(levels, n) == runs + [1] && LevelOf(levels[0], |runs|) == 1 - LevelOf(levels[0], last);
    }
  }

  lemma SignalOfOne(first: int)
    ensures Signal(first, [1], 1) == [first]
  {
    RunNew(first, []);
    assert [] + [1] == [1];
    assert Signal(first, [], 0) == [];
  }

  lemma {:induction false} RunsPrefix(levels: seq<int>, more: seq<int>, n: nat)
    requires 0 < n <= |levels| && n <= |more| && forall i :: 0 <= i < n ==> levels[i] == more[i]
    ensures Runs(levels, n) == Runs(more, n)
  {
    if n > 1 { RunsPrefix(levels, more, n - 1); }
  }

  lemma RunsNext(levels: seq<int>, level: int)
    requires levels != []
    ensures var runs, next := Runs(levels, |levels|), Runs(levels + [level], |levels| + 1);
            var last := |next| - 1;
            if level == levels[|levels| - 1]
            then |next| == |runs| && next[last] == runs[last] + 1 && next[..last] == runs[..last]
            else next[last] == 1 && next[..last] == runs
  {
    RunsPrefix(levels, levels + [level], |levels|);
  }

  // format_rle_pulse, in tape_block.c: the pulses of a block, one that is cut short included
  method CountPulses(data: seq<int>) returns (pulses: nat)
    ensures pulses == |Read(data).runs| + if Read(data).expecting.Length? then 0 else 1
  {
    pulses := 0;
    var i := 0;
    while i < |data|
      invariant i <= |data| ==> ReadTo(data, i).expecting.Length? && pulses == |ReadTo(data, i).runs|
      invariant i > |data| ==> !Read(data).expecting.Length? && pulses == |Read(data).runs| + 1
    {
      if data[i] == 0 { DwordRead(data, i); }
      if data[i] != 0 {
        pulses := pulses + 1;
      } else {
        i := i + 4;
        pulses := pulses + 1;
      }
      i := i + 1;
    }
  }

  lemma DwordRead(data: seq<int>, i: nat)
    requires i < |data| && data[i] == 0 && ReadTo(data, i).expecting.Length?
    ensures var runs := ReadTo(data, i).runs;
            if i + 5 <= |data|
            then ReadTo(data, i + 5).expecting.Length? && |ReadTo(data, i + 5).runs| == |runs| + 1
            else !Read(data).expecting.Length? && Read(data).runs == runs
  {
    var n := if i + 4 <= |data| then 4 else |data| - i;
    DwordBegun(data, i, n);
  }

  lemma {:induction false} DwordBegun(data: seq<int>, i: nat, k: nat)
    requires 0 < k <= 4 && i + k <= |data| && data[i] == 0 && ReadTo(data, i).expecting.Length?
    ensures ReadTo(data, i + k).expecting.Dword? && ReadTo(data, i + k).expecting.left == 5 - k
    ensures ReadTo(data, i + k).runs == ReadTo(data, i).runs
  {
    if k > 1 { DwordBegun(data, i, k - 1); }
  }

  // ---------------------------------------------------------------- the recorder

  class Recorder {
    var buffer: array<int>
    var used: nat
    var lastLevel: int
    var lastLevelCount: nat

    ghost var levels: seq<int>       // the levels sampled so far

    // The buffer holds the runs that are over, and the last one is being counted
    ghost predicate Valid()
      reads this, buffer
    {
      && levels != [] && lastLevelCount < LIMIT && lastLevel == levels[|levels| - 1]
      && used + 5 < buffer.Length
      && var runs := Runs(levels, |levels|);
         lastLevelCount == runs[|runs| - 1] && Read(buffer[..used]) == Reader(Length, runs[..|runs| - 1])
    }

    // tape_record_start
    constructor (level: int)
      ensures Valid() && fresh(buffer) && levels == [level]
    {
      buffer, used := new int[BUFFER_SIZE], 0;
      lastLevel, lastLevelCount := level, 1;
      levels := [level];
      new;
      assert buffer[..0] == [] && Runs([level], 1)[..0] == [];
    }

    // tape_record_encode
    method Encode(count: nat)
      requires used + 5 <= buffer.Length
      modifies buffer, this`used
      ensures used <= old(used) + 5 && buffer[..used] == old(buffer[..used]) + Encoded(count)
    {
      if count <= 0xff {
        buffer[used] := count;
        used := used + 1;
      } else {
        buffer[used], buffer[used + 1], buffer[used + 2] := 0, count % 256, count / 256 % 256;
        buffer[used + 3], buffer[used + 4] := count / 65536 % 256, count / 16777216 % 256;
        used := used + 5;
      }
    }

    // tape_record_ensure_capacity
    method EnsureCapacity()
      requires 5 < buffer.Length && used <= buffer.Length
      modifies this`buffer
      ensures used + 5 < buffer.Length && buffer[..used] == old(buffer[..used])
      ensures buffer.Length == if used + 5 < old(buffer.Length) then old(buffer.Length) else 2 * old(buffer.Length)
      ensures buffer == old(buffer) || fresh(buffer)
    {
      if used + 5 < buffer.Length { return; }
      var larger := new int[2 * buffer.Length];
      for i := 0 to used
        invariant buffer == old(buffer) && forall j :: 0 <= j < i ==> larger[j] == buffer[j]
      {
        larger[i] := buffer[i];
      }
      buffer := larger;
    }

    // tape_event_record_sample
    method RecordSample(level: int)
      requires Valid() && (level == lastLevel ==> lastLevelCount + 1 < LIMIT)
      modifies this, buffer
      ensures Valid() && levels == old(levels) + [level] && (buffer == old(buffer) || fresh(buffer))
    {
      RunsNext(levels, level);
      if lastLevel != level { EndRun(level); }
      Count(level);
    }

    // One sample more makes the recorder valid again
    ghost predicate Counting(level: int)
      reads this, buffer
    {
      && levels != [] && used + 5 < buffer.Length && lastLevel == level
      && var next := Runs(levels + [level], |levels| + 1);
         lastLevelCount + 1 == next[|next| - 1] && Read(buffer[..used]) == Reader(Length, next[..|next| - 1])
    }

    method Count(level: int)
      requires Counting(level) && lastLevelCount + 1 < LIMIT
      modifies this`lastLevelCount, this`levels
      ensures Valid() && levels == old(levels) + [level]
    {
      lastLevelCount := lastLevelCount + 1;
      levels := levels + [level];
    }

    // The level has changed: put the run that is over into the buffer
    method EndRun(level: int)
      requires Valid() && level != lastLevel
      modifies this`buffer, this`used, this`lastLevel, this`lastLevelCount, buffer
      ensures Counting(level) && lastLevelCount == 0 && (buffer == old(buffer) || fresh(buffer))
    {
      RunsNext(levels, level);
      ghost var runs := Runs(levels, |levels|);
      RunsCoverAll(levels, |levels|);
      RunReadBack(buffer[..used], runs[..|runs| - 1], lastLevelCount);
      assert runs[..|runs| - 1] + [lastLevelCount] == runs;
      Encode(lastLevelCount);
      lastLevelCount := 0;
      lastLevel := level;
      EnsureCapacity();
    }

    // tape_record_stop: the data of the block made gives the lengths of all the runs
    method Stop() returns (data: seq<int>)
      requires Valid()
      modifies buffer, this`used
      ensures Read(data) == Reader(Length, Runs(levels, |levels|))
    {
      ghost var runs := Runs(levels, |levels|);
      RunsCoverAll(levels, |levels|);
      RunReadBack(buffer[..used], runs[..|runs| - 1], lastLevelCount);
      Encode(lastLevelCount);
      data := buffer[..used];
      assert runs == runs[..|runs| - 1] + [runs[|runs| - 1]];
    }
  }
}
