/** psg.c: a log of what is written to the registers of the sound chip, frame by frame. */
module Psg {

  const AY_REGISTERS: nat := 16
  const PSG_REGISTERS: nat := 14     // the other two are not logged
  const SINGLE_FRAME: int := 0xff
  const MULTI_FRAME: int := 0xfe
  const FRAMES_PER_BLOCK: nat := 4

  // The registers written to in a frame, and with what
  type Frame = map<int, int>

  function NoFrames(n: nat): (frames: seq<Frame>)
    ensures |frames| == n && forall i :: 0 <= i < n ==> frames[i] == map[]
  {
    seq(n, _ => map[])
  }

  // "PSG", 0x1a and padding
  function Header(): seq<int> { [0x50, 0x53, 0x47, 0x1a, 0, 0, 0, 0, 0, 0, 0, 0, 0, 0, 0, 0] }

  // ---------------------------------------------------------------- what a log means

  datatype Expecting = Command | Value(register: int) | Count

  // A player of the documented format, and the frames begun so far: 0xff begins a frame, 0xfe and a
  // count begin four times as many, and anything else is a register, with its value behind it
  datatype Player = Player(expecting: Expecting, frames: seq<Frame>)

  function Feed(p: Player, b: int): Player {
    match p.expecting
    case Command =>
      if b == 0xff then p.(frames := p.frames + NoFrames(1))
      else p.(expecting := if b == 0xfe then Count else Value(b))
    case Count => Player(Command, p.frames + NoFrames(if b > 0 then 4 * b else 0))
    case Value(r) =>
      var n := |p.frames|;
      Player(Command, if n == 0 then [] else p.frames[n - 1 := p.frames[n - 1][r := b]])
  }

  function PlayedTo(log: seq<int>, n: nat): Player
    requires n <= |log|
  {
    if n == 0 then Player(Command, []) else Feed(PlayedTo(log, n - 1), log[n - 1])
  }

  function Played(log: seq<int>): Player { PlayedTo(log, |log|) }

  lemma {:induction false} PlayedSame(log: seq<int>, other: seq<int>, n: nat)
    requires n <= |log| && n <= |other| && forall i :: 0 <= i < n ==> log[i] == other[i]
    ensures PlayedTo(log, n) == PlayedTo(other, n)
  {
    if n > 0 { PlayedSame(log, other, n - 1); }
  }

  lemma PlayedAppend(log: seq<int>, b: int)
    ensures Played(log + [b]) == Feed(Played(log), b)
  {
    PlayedSame(log, log + [b], |log|);
  }

  lemma PlayedAppendTwo(log: seq<int>, b: int, d: int)
    ensures Played(log + [b] + [d]) == Feed(Feed(Played(log), b), d)
  {
    PlayedAppend(log, b);
    PlayedAppend(log + [b], d);
  }

  lemma RegisterPlayed(log: seq<int>, frames: seq<Frame>, last: nat, frame: Frame, register: nat, value: int)
    requires last == |frames| - 1 && register < PSG_REGISTERS && Played(log) == Player(Command, frames[last := frame])
    ensures Played(log + [register] + [value]) == Player(Command, frames[last := frame[register := value]])
  {
    PlayedAppendTwo(log, register, value);
    assert frames[last := frame][last := frame[register := value]] == frames[last := frame[register := value]];
  }

  lemma NoFramesAdd(frames: seq<Frame>, m: nat, n: nat)
    ensures frames + NoFrames(m) + NoFrames(n) == frames + NoFrames(m + n)
  {
  }

  // ---------------------------------------------------------------- recording

  predicate Bytes(log: seq<int>) { forall i :: 0 <= i < |log| ==> 0 <= log[i] < 256 }

  // The log, followed by the frames that have only been counted so far, gives the frames
  // that are over and the one begun
  ghost predicate Logs(log: seq<int>, empty: nat, history: seq<Frame>) {
    var p := Played(log);
    Bytes(log) && p.expecting == Command && p.frames + NoFrames(empty) == history + NoFrames(1)
  }

  lemma BlankFrame(log: seq<int>, empty: nat, history: seq<Frame>)
    requires Logs(log, empty, history)
    ensures Logs(log, empty + 1, history + [map[]])
  {
    NoFramesAdd(Played(log).frames, empty, 1);
    assert history + [map[]] == history + NoFrames(1);
  }

  lemma LastIsBlank(history: seq<Frame>, frames: seq<Frame>)
    requires frames == history + NoFrames(1)
    ensures frames != [] && frames[|frames| - 1] == map[]
    ensures forall frame :: frames[|frames| - 1 := frame] == history + [frame]
  {
  }

  class Recorder {
    var recording: bool
    const values: array<int>
    const written: array<bool>
    var emptyFrameCount: nat
    var log: seq<int>                // the file, after its header
    var header: seq<int>

    ghost var history: seq<Frame>    // the frames that were over while recording

    ghost predicate Shape() {
      values.Length == written.Length == AY_REGISTERS
    }

    ghost predicate Valid()
      reads this, values, written
    {
      && Shape() && (forall i :: 0 <= i < PSG_REGISTERS ==> 0 <= values[i] < 256)
      && (recording ==> header == Header() && emptyFrameCount > 0 && Logs(log, emptyFrameCount, history))
    }

    // The first n registers written to in this frame
    ghost function WrittenTo(n: nat): Frame
      requires Shape() && n <= PSG_REGISTERS
      reads values, written
    {
      map r: int | 0 <= r < n && written[r] :: values[r]
    }

    ghost function Current(): Frame
      requires Shape()
      reads values, written
    {
      WrittenTo(PSG_REGISTERS)
    }

    constructor ()
      ensures Valid() && !recording && fresh(values) && fresh(written)
    {
      values, written := new int[AY_REGISTERS](_ => 0), new bool[AY_REGISTERS](_ => false);
      recording, emptyFrameCount, log, header, history := false, 0, [], [], [];
    }

    // "begin with no registers written"
    method Forget()
      requires Shape()
      modifies written
      ensures forall i :: 0 <= i < AY_REGISTERS ==> !written[i]
    {
      for i := 0 to AY_REGISTERS
        invariant forall j :: 0 <= j < i ==> !written[j]
      {
        written[i] := false;
      }
    }

    // psg_start_recording
    method Start() returns (error: bool)
      requires Valid()
      modifies this, written
      ensures Valid() && recording && error == old(recording)
      ensures !error ==> history == [] && Current() == map[]
      ensures error ==> history == old(history) && log == old(log) && Current() == old(Current())
    {
      if recording { return true; }
      header, log := Header(), [];
      Forget();
      emptyFrameCount, recording, history := 1, true, [];
      error := false;
    }

    // write_frame_separator
    method WriteFrameSeparator()
      requires Bytes(log) && Played(log).expecting == Command
      modifies this`log, this`emptyFrameCount
      ensures emptyFrameCount == 0 && Bytes(log)
      ensures Played(log) == Player(Command, Played(old(log)).frames + NoFrames(old(emptyFrameCount)))
    {
      ghost var frames, total := Played(log).frames, emptyFrameCount;
      while emptyFrameCount >= FRAMES_PER_BLOCK
        invariant emptyFrameCount <= total && Bytes(log)
        invariant Played(log) == Player(Command, frames + NoFrames(total - emptyFrameCount))
      {
        var count := emptyFrameCount / FRAMES_PER_BLOCK;
        if count > 0xff { count := 0xff; }
        PlayedAppendTwo(log, MULTI_FRAME, count);
        NoFramesAdd(frames, total - emptyFrameCount, FRAMES_PER_BLOCK * count);
        log := log + [MULTI_FRAME] + [count];
        emptyFrameCount := emptyFrameCount - FRAMES_PER_BLOCK * count;
      }
      while emptyFrameCount > 0
        invariant emptyFrameCount <= total && Bytes(log)
        invariant Played(log) == Player(Command, frames + NoFrames(total - emptyFrameCount))
      {
        PlayedAppend(log, SINGLE_FRAME);
        NoFramesAdd(frames, total - emptyFrameCount, 1);
        log := log + [SINGLE_FRAME];
        emptyFrameCount := emptyFrameCount - 1;
      }
    }

    // The registers written to, after the separator of their frame
    method PutRegisters()
      requires Shape() && (forall i :: 0 <= i < PSG_REGISTERS ==> 0 <= values[i] < 256)
      requires Bytes(log) && Played(log).expecting == Command && Played(log).frames != []
      requires Played(log).frames[|Played(log).frames| - 1] == map[]
      modifies this`log
      ensures var frames := Played(old(log)).frames;
              Bytes(log) && Played(log) == Player(Command, frames[|frames| - 1 := Current()])
    {
      ghost var frames := Played(log).frames;
      ghost var last := |frames| - 1;
      assert frames[last := WrittenTo(0)] == frames;
      for i := 0 to PSG_REGISTERS
        invariant Bytes(log) && Played(log) == Player(Command, frames[last := WrittenTo(i)])
      {
        if written[i] {
          RegisterPlayed(log, frames, last, WrittenTo(i), i, values[i]);
          assert WrittenTo(i + 1) == WrittenTo(i)[i := values[i]];
          log := log + [i] + [values[i]];
        } else {
          assert WrittenTo(i + 1) == WrittenTo(i);
        }
      }
    }

    // psg_frame: the registers written to become the content of a frame that is over
    method EndFrame()
      requires Valid()
      modifies this`log, this`emptyFrameCount, this`history, written
      ensures Valid() && history == (if recording then old(history) + [old(Current())] else old(history))
      ensures recording ==> Current() == map[]
      ensures !recording ==> Current() == old(Current()) && log == old(log) && emptyFrameCount == old(emptyFrameCount)
    {
      if !recording { return; }
      var updated, i := false, 0;
      while i < PSG_REGISTERS && !updated
        invariant i <= PSG_REGISTERS && (updated ==> i > 0 && written[i - 1])
        invariant (!updated ==> forall j :: 0 <= j < i ==> !written[j])
      {
        updated := written[i];
        i := i + 1;
      }
      ghost var frame := Current();
      if updated {
        WriteFrameSeparator();
        LastIsBlank(history, Played(log).frames);
        PutRegisters();
        emptyFrameCount := 1;
      } else {
        assert frame == map[];
        BlankFrame(log, emptyFrameCount, history);
        emptyFrameCount := emptyFrameCount + 1;
      }
      history := history + [frame];
      Forget();
    }

    // psg_stop_recording: the log is complete. Playing it gives every frame that was over,
    // and begins one more.
    method Stop() returns (error: bool)
      requires Valid()
      modifies this`recording, this`log, this`emptyFrameCount, this`history, written
      ensures Valid() && !recording && error == !old(recording)
      ensures !error ==> header[..4] == [0x50, 0x53, 0x47, 0x1a] && |header| == 16
      ensures !error ==> history == old(history) + [old(Current())]
                         && Bytes(log) && Played(log) == Player(Command, history + NoFrames(1))
    {
      if !recording { return true; }
      EndFrame();
      WriteFrameSeparator();
      recording, error := false, false;
    }

    // psg_write_register: in a frame only the first value of a register is kept
    method WriteRegister(register: nat, value: int)
      requires Valid() && register < AY_REGISTERS && 0 <= value < 256
      modifies values, written
      ensures Valid()
      ensures Current() == if register >= 14 || register in old(Current()) then old(Current())
                           else old(Current())[register := value]
    {
      if written[register] { return; }
      values[register] := value;
      written[register] := true;
    }
  }
}
