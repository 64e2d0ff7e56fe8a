/** debugger/packets.c: the framing of the messages exchanged with GDB. */
module Packets {

  const CAPACITY: nat := 0x4000      // PACKET_BUF_SIZE

  const START: int := 0x24           // '$'
  const HASH: int := 0x23            // '#'
  const INTERRUPT: int := 0x03

  // The sum of the first n bytes, as far as a byte holds it
  function Checksum(data: seq<int>, n: nat): (c: nat)
    requires n <= |data|
    ensures c < 256
  {
    if n == 0 then 0 else (Checksum(data, n - 1) + data[n - 1]) % 256
  }

  function HexDigit(d: nat): (c: int)
    requires d < 16
    ensures HexNibble(c) == d && c != HASH
  {
    if d < 10 then 0x30 + d else 0x61 + (d - 10)
  }

  // hex_nib
  function HexNibble(c: int): (d: int)
    ensures -1 <= d < 16
  {
    if 0x30 <= c <= 0x39 then c - 0x30
    else if 0x61 <= c <= 0x66 then c - 0x61 + 10
    else if 0x41 <= c <= 0x46 then c - 0x41 + 10
    else -1
  }

  // A message as section "Overview" of GDB's remote protocol has it framed
  function Framed(data: seq<int>): seq<int> {
    var c := Checksum(data, |data|);
    [START] + data + [HASH, HexDigit(c / 16), HexDigit(c % 16)]
  }

  function Sum(data: seq<int>, n: nat): int
    requires n <= |data|
  {
    if n == 0 then 0 else Sum(data, n - 1) + data[n - 1]
  }

  lemma {:induction false} ChecksumIsSum(data: seq<int>, n: nat)
    requires n <= |data|
    ensures Checksum(data, n) == Sum(data, n) % 256
  {
    if n > 0 { ChecksumIsSum(data, n - 1); }
  }

  // In characters: '$', the message, '#' and the sum of its bytes in two lower-case hexadecimal digits
  lemma FramedText(data: seq<int>)
    ensures var c := Sum(data, |data|) % 256;
            var high, low := c / 16, c % 16;
            Framed(data) == ['$' as int] + data
                            + ['#' as int, if high < 10 then '0' as int + high else 'a' as int + high - 10,
                               if low < 10 then '0' as int + low else 'a' as int + low - 10]
  {
    ChecksumIsSum(data, |data|);
    HexDigitText(Checksum(data, |data|) / 16);
    HexDigitText(Checksum(data, |data|) % 16);
  }

  lemma HexDigitText(d: nat)
    requires d < 16
    ensures HexDigit(d) == if d < 10 then '0' as int + d else 'a' as int + d - 10
  {
  }

  // ---------------------------------------------------------------- the receiving side

  datatype State = Idle | InPayload(data: seq<int>) | HashHigh(data: seq<int>) | HashLow(data: seq<int>, high: int)

  datatype Result = NotConsumed | Consumed | Complete | Interrupt

  datatype Reply = Ack | Nak

  datatype Stepped = Stepped(state: State, result: Result, replies: seq<Reply>)

  // What a byte does to the deframer
  function Step(s: State, b: int): Stepped {
    match s
    case Idle =>
      if b == START then Stepped(InPayload([]), Consumed, [])
      else Stepped(Idle, if b == INTERRUPT then Interrupt else NotConsumed, [])
    case InPayload(data) =>
      if b == HASH then Stepped(HashHigh(data), Consumed, [])
      else if |data| >= CAPACITY then Stepped(Idle, NotConsumed, [Nak])
      else Stepped(InPayload(data + [b]), Consumed, [])
    case HashHigh(data) =>
      if HexNibble(b) < 0 then Stepped(Idle, NotConsumed, [Nak]) else Stepped(HashLow(data, HexNibble(b)), Consumed, [])
    case HashLow(data, high) =>
      if HexNibble(b) >= 0 && 16 * high + HexNibble(b) == Checksum(data, |data|) then Stepped(s, Complete, [Ack])
      else Stepped(Idle, NotConsumed, [Nak])
  }

  // The server: it takes every complete message, and then begins afresh
  datatype Server = Server(state: State, messages: seq<seq<int>>, interrupts: nat, replies: seq<Reply>)

  function Received(v: Server, b: int): Server {
    var s := Step(v.state, b);
    Server(if s.result == Complete then Idle else s.state,
           if s.result == Complete then v.messages + [v.state.data] else v.messages,
           if s.result == Interrupt then v.interrupts + 1 else v.interrupts,
           v.replies + s.replies)
  }

  function ReceivedTo(v: Server, bytes: seq<int>, n: nat): Server
    requires n <= |bytes|
  {
    if n == 0 then v else Received(ReceivedTo(v, bytes, n - 1), bytes[n - 1])
  }

  function ReceivedAll(v: Server, bytes: seq<int>): Server { ReceivedTo(v, bytes, |bytes|) }

  lemma {:induction false} ReceivedSame(v: Server, bytes: seq<int>, other: seq<int>, n: nat)
    requires n <= |bytes| && n <= |other| && forall i :: 0 <= i < n ==> bytes[i] == other[i]
    ensures ReceivedTo(v, bytes, n) == ReceivedTo(v, other, n)
  {
    if n > 0 { ReceivedSame(v, bytes, other, n - 1); }
  }

  // How the bytes are cut into chunks by the network makes no difference
  lemma {:induction false} ReceivedInChunks(v: Server, a: seq<int>, b: seq<int>)
    ensures ReceivedAll(v, a + b) == ReceivedAll(ReceivedAll(v, a), b)
  {
    ReceivedSecond(v, a, b, |b|);
  }

  lemma {:induction false} ReceivedSecond(v: Server, a: seq<int>, b: seq<int>, n: nat)
    requires n <= |b|
    ensures ReceivedTo(v, a + b, |a| + n) == ReceivedTo(ReceivedAll(v, a), b, n)
  {
    if n == 0 {
      ReceivedSame(v, a, a + b, |a|);
    } else {
      ReceivedSecond(v, a, b, n - 1);
      assert (a + b)[|a| + n - 1] == b[n - 1];
    }
  }

  // What may be sent as it is
  predicate Sendable(data: seq<int>) {
    |data| <= CAPACITY && forall i :: 0 <= i < |data| ==> data[i] != HASH
  }

  lemma {:induction false} PayloadReceived(v: Server, data: seq<int>, n: nat)
    requires v.state == InPayload([]) && Sendable(data) && n <= |data|
    ensures ReceivedTo(v, data, n) == v.(state := InPayload(data[..n]))
  {
    if n > 0 {
      PayloadReceived(v, data, n - 1);
      assert data[..n] == data[..n - 1] + [data[n - 1]];
    }
  }

  // A payload followed by a checksum
  lemma PacketReceived(v: Server, data: seq<int>, high: int, low: int)
    requires v.state == Idle && Sendable(data) && 0 <= HexNibble(high) && 0 <= HexNibble(low)
    ensures ReceivedAll(v, [START] + data + [HASH, high, low])
         == if 16 * HexNibble(high) + HexNibble(low) == Checksum(data, |data|)
            then v.(messages := v.messages + [data], replies := v.replies + [Ack])
            else v.(replies := v.replies + [Nak])
  {
    var begun := v.(state := InPayload([]));
    var first, tail := [START] + data, [HASH, high, low];
    ReceivedInChunks(v, first, tail);
    ReceivedInChunks(v, [START], data);
    assert ReceivedTo(v, [START], 0) == v && v.replies + [] == v.replies;
    assert ReceivedAll(v, [START]) == begun;
    PayloadReceived(begun, data, |data|);
    assert data[..|data|] == data;
    TailReceived(begun.(state := InPayload(data)), data, high, low);
  }

  lemma TailReceived(v: Server, data: seq<int>, high: int, low: int)
    requires v.state == InPayload(data) && 0 <= HexNibble(high) && 0 <= HexNibble(low)
    ensures ReceivedAll(v, [HASH, high, low])
         == if 16 * HexNibble(high) + HexNibble(low) == Checksum(data, |data|)
            then v.(state := Idle, messages := v.messages + [data], replies := v.replies + [Ack])
            else v.(state := Idle, replies := v.replies + [Nak])
  {
    var tail := [HASH, high, low];
    assert ReceivedTo(v, tail, 0) == v && v.replies + [] == v.replies;
    assert ReceivedTo(v, tail, 1) == v.(state := HashHigh(data));
    assert ReceivedTo(v, tail, 2) == v.(state := HashLow(data, HexNibble(high)));
  }

  // A message that was sent arrives
  lemma MessageArrives(v: Server, data: seq<int>)
    requires v.state == Idle && Sendable(data)
    ensures ReceivedAll(v, Framed(data)) == v.(messages := v.messages + [data], replies := v.replies + [Ack])
  {
    var c := Checksum(data, |data|);
    PacketReceived(v, data, HexDigit(c / 16), HexDigit(c % 16));
  }

  // One with a damaged byte in its payload does not, and is asked for again
  lemma DamageIsNoticed(v: Server, data: seq<int>, i: nat, b: int)
    requires v.state == Idle && Sendable(data) && forall j :: 0 <= j < |data| ==> 0 <= data[j] < 256
    requires i < |data| && 0 <= b < 256 && b != data[i] && b != HASH
    ensures ReceivedAll(v, Framed(data)[i + 1 := b]) == v.(replies := v.replies + [Nak])
  {
    var c, damaged := Checksum(data, |data|), data[i := b];
    assert Framed(data)[i + 1 := b] == [START] + damaged + [HASH, HexDigit(c / 16), HexDigit(c % 16)];
    ChecksumChanges(data, damaged, i, |data|);
    PacketReceived(v, damaged, HexDigit(c / 16), HexDigit(c % 16));
  }

  lemma {:induction false} ChecksumChanges(data: seq<int>, other: seq<int>, i: nat, n: nat)
    requires i < n <= |data| == |other| && 0 <= data[i] < 256 && 0 <= other[i] < 256 && data[i] != other[i]
    requires forall j :: 0 <= j < |data| && j != i ==> data[j] == other[j]
    ensures Checksum(data, n) != Checksum(other, n)
  {
    if i == n - 1 {
      ChecksumPrefix(data, other, n - 1);
      SumsDiffer(Checksum(data, n - 1), data[i], other[i]);
    } else {
      ChecksumChanges(data, other, i, n - 1);
      SumsDiffer(data[n - 1], Checksum(data, n - 1), Checksum(other, n - 1));
    }
  }

  lemma SumsDiffer(x: int, y: int, z: int)
    requires 0 <= y < 256 && 0 <= z < 256 && y != z
    ensures (x + y) % 256 != (x + z) % 256 && (y + x) % 256 != (z + x) % 256
  {
  }

  // Messages, each after bytes that mean nothing to an idle deframer
  function Stream(noise: seq<seq<int>>, messages: seq<seq<int>>, n: nat): seq<int>
    requires n <= |noise| && n <= |messages|
  {
    if n == 0 then [] else Stream(noise, messages, n - 1) + noise[n - 1] + Framed(messages[n - 1])
  }

  // How many interrupt bytes there are
  function Interrupts(noise: seq<int>, n: nat): nat
    requires n <= |noise|
  {
    if n == 0 then 0 else Interrupts(noise, n - 1) + if noise[n - 1] == 3 then 1 else 0
  }

  // Of bytes between messages nothing is taken, but interrupts are counted
  lemma {:induction false} NoiseReceived(v: Server, noise: seq<int>, n: nat)
    requires v.state == Idle && n <= |noise| && forall i :: 0 <= i < |noise| ==> noise[i] != '$' as int
    ensures ReceivedTo(v, noise, n) == v.(interrupts := v.interrupts + Interrupts(noise, n))
  {
    if n > 0 {
      NoiseReceived(v, noise, n - 1);
      assert v.replies + [] == v.replies;
    }
  }

  function AllInterrupts(noise: seq<seq<int>>, n: nat): nat
    requires n <= |noise|
  {
    if n == 0 then 0 else AllInterrupts(noise, n - 1) + Interrupts(noise[n - 1], |noise[n - 1]|)
  }

  // All messages of a conversation arrive, once each and in order, and so do the interrupts between
  // them. Within a message an interrupt byte is like any other.
  lemma {:induction false} AllArrive(v: Server, noise: seq<seq<int>>, messages: seq<seq<int>>, n: nat)
    requires v.state == Idle && n <= |noise| && n <= |messages|
    requires forall i :: 0 <= i < |messages| ==> Sendable(messages[i])
    requires forall i, j :: 0 <= i < |noise| && 0 <= j < |noise[i]| ==> noise[i][j] != '$' as int
    ensures ReceivedAll(v, Stream(noise, messages, n))
         == Server(Idle, v.messages + messages[..n], v.interrupts + AllInterrupts(noise, n), v.replies + Acks(n))
  {
    if n == 0 {
      assert v.messages + messages[..0] == v.messages && v.replies + Acks(0) == v.replies;
    } else {
      var before := Stream(noise, messages, n - 1);
      AllArrive(v, noise, messages, n - 1);
      ReceivedInChunks(v, before + noise[n - 1], Framed(messages[n - 1]));
      ReceivedInChunks(v, before, noise[n - 1]);
      NoiseReceived(ReceivedAll(v, before), noise[n - 1], |noise[n - 1]|);
      MessageArrives(ReceivedAll(v, before + noise[n - 1]), messages[n - 1]);
      OneMore(v.messages, messages, n);
      assert v.replies + Acks(n) == v.replies + Acks(n - 1) + [Ack];
    }
  }

  function Acks(n: nat): seq<Reply> { seq(n, _ => Ack) }

  lemma OneMore<T>(s: seq<T>, t: seq<T>, n: nat)
    requires 0 < n <= |t|
    ensures s + t[..n] == s + t[..n - 1] + [t[n - 1]]
  {
  }

  lemma {:induction false} LongPayloadReceived(v: Server, data: seq<int>, n: nat)
    requires v.state == InPayload([]) && n <= |data| && n <= 0x4000
    requires forall i :: 0 <= i < |data| ==> data[i] != '#' as int
    ensures ReceivedTo(v, data, n) == v.(state := InPayload(data[..n]))
  {
    if n > 0 {
      LongPayloadReceived(v, data, n - 1);
      assert data[..n] == data[..n - 1] + [data[n - 1]];
      assert v.replies + [] == v.replies;
    }
  }

  // A message with something else than a hexadecimal digit behind its '#' is refused at once
  lemma NoDigitIsRefused(v: Server, data: seq<int>, b: int)
    requires v.state == Idle && Sendable(data)
    requires !('0' as int <= b <= '9' as int) && !('a' as int <= b <= 'f' as int) && !('A' as int <= b <= 'F' as int)
    ensures ReceivedAll(v, ['$' as int] + data + ['#' as int, b]) == v.(replies := v.replies + [Nak])
  {
    var begun, tail := v.(state := InPayload([])), ['#' as int, b];
    ReceivedInChunks(v, ['$' as int] + data, tail);
    ReceivedInChunks(v, ['$' as int], data);
    assert ReceivedTo(v, ['$' as int], 0) == v && v.replies + [] == v.replies;
    assert ReceivedAll(v, ['$' as int]) == begun;
    PayloadReceived(begun, data, |data|);
    assert data[..|data|] == data;
    var all := v.(state := InPayload(data));
    assert ReceivedTo(all, tail, 0) == all && ReceivedTo(all, tail, 1) == v.(state := HashHigh(data));
  }

  // A message longer than the buffer is refused with its first byte too many
  lemma TooLongIsRefused(v: Server, data: seq<int>)
    requires v.state == Idle && |data| == 0x4001 && forall i :: 0 <= i < |data| ==> data[i] != '#' as int
    ensures ReceivedAll(v, ['$' as int] + data) == v.(replies := v.replies + [Nak])
  {
    var begun := v.(state := InPayload([]));
    ReceivedInChunks(v, ['$' as int], data);
    assert ReceivedTo(v, ['$' as int], 0) == v && v.replies + [] == v.replies;
    assert ReceivedAll(v, ['$' as int]) == begun;
    LongPayloadReceived(begun, data, 0x4000);
    assert ReceivedAll(begun, data) == Received(ReceivedTo(begun, data, 0x4000), data[0x4000]);
  }

  // ---------------------------------------------------------------- nothing else is taken for a message

  // What the last bytes received were
  ghost predicate Seen(s: State, bytes: seq<int>) {
    match s
    case Idle => true
    case InPayload(data) => EndsWith(bytes, [START] + data) && Sendable(data)
    case HashHigh(data) => EndsWith(bytes, [START] + data + [HASH]) && Sendable(data)
    case HashLow(data, high) =>
      bytes != [] && HexNibble(bytes[|bytes| - 1]) == high && Sendable(data)
      && EndsWith(bytes[..|bytes| - 1], [START] + data + [HASH])
  }

  ghost predicate EndsWith(bytes: seq<int>, end: seq<int>) {
    |end| <= |bytes| && bytes[|bytes| - |end|..] == end
  }

  lemma EndsWithMore(bytes: seq<int>, end: seq<int>, b: int)
    requires EndsWith(bytes, end)
    ensures EndsWith(bytes + [b], end + [b])
  {
  }

  lemma StepSeen(s: State, bytes: seq<int>, b: int)
    requires Seen(s, bytes)
    ensures Seen(Step(s, b).state, bytes + [b]) || Step(s, b).result == Complete
  {
    match s {
      case Idle => assert (bytes + [b])[|bytes|..] == [START] + [] || b != START;
      case InPayload(data) => EndsWithMore(bytes, [START] + data, b);
        assert [START] + (data + [b]) == [START] + data + [b];
      case HashHigh(data) => assert (bytes + [b])[..|bytes|] == bytes;
      case HashLow(data, high) =>
    }
  }

  lemma {:induction false} ReceivedSeen(v: Server, bytes: seq<int>, n: nat)
    requires v.state == Idle && n <= |bytes|
    ensures Seen(ReceivedTo(v, bytes, n).state, bytes[..n])
  {
    if n > 0 {
      ReceivedSeen(v, bytes, n - 1);
      StepSeen(ReceivedTo(v, bytes, n - 1).state, bytes[..n - 1], bytes[n - 1]);
      assert bytes[..n] == bytes[..n - 1] + [bytes[n - 1]];
    }
  }

  // Whenever a message is taken, the bytes received last were exactly that message framed,
  // with its checksum in hexadecimal of either case
  lemma TakenMeansFramed(v: Server, bytes: seq<int>, n: nat)
    requires v.state == Idle && 0 < n <= |bytes|
    requires ReceivedTo(v, bytes, n).messages != ReceivedTo(v, bytes, n - 1).messages
    ensures n >= 4
    ensures var before := ReceivedTo(v, bytes, n - 1);
            && before.state.HashLow?
            && var data := before.state.data;
               && ReceivedTo(v, bytes, n).messages == before.messages + [data] && Sendable(data)
               && EndsWith(bytes[..n - 2], [START] + data + [HASH])
               && HexNibble(bytes[n - 2]) >= 0 && HexNibble(bytes[n - 1]) >= 0
               && 16 * HexNibble(bytes[n - 2]) + HexNibble(bytes[n - 1]) == Checksum(data, |data|)
  {
    ReceivedSeen(v, bytes, n - 1);
    assert bytes[..n - 1][..n - 2] == bytes[..n - 2];
  }

  // ---------------------------------------------------------------- the deframer and the sender

  datatype Phase = InIdle | InData | InHashHigh | InHashLow

  lemma ChecksumAppend(data: seq<int>, b: int)
    ensures Checksum(data + [b], |data| + 1) == (Checksum(data, |data|) + b) % 256
  {
    ChecksumPrefix(data, data + [b], |data|);
  }

  lemma {:induction false} ChecksumPrefix(data: seq<int>, more: seq<int>, n: nat)
    requires n <= |data| && n <= |more| && forall j :: 0 <= j < n ==> data[j] == more[j]
    ensures Checksum(data, n) == Checksum(more, n)
  {
    if n > 0 { ChecksumPrefix(data, more, n - 1); }
  }

  // packet_send_message
  method SendMessage(data: seq<int>) returns (packet: seq<int>)
    ensures packet == Framed(data)
  {
    var buf := new int[1 + |data| + 1 + 2];
    var pos, checksum := 0, 0;
    buf[pos] := START;
    pos := pos + 1;
    for i := 0 to |data|
      invariant pos == i + 1 && checksum == Checksum(data, i) && buf[0] == START
      invariant forall j :: 0 <= j < i ==> buf[j + 1] == data[j]
    {
      checksum := (checksum + data[i]) % 256;
      buf[pos] := data[i];
      pos := pos + 1;
    }
    buf[pos] := HASH;
    buf[pos + 1] := HexDigit(checksum / 16);
    buf[pos + 2] := HexDigit(checksum % 16);
    packet := buf[..pos + 3];
  }

  class Deframer {
    var phase: Phase
    const buf: array<int>
    var len: nat
    var csum: nat
    var hi: int

    var replies: seq<Reply>          // what has been sent to the client
    var messages: seq<seq<int>>      // what has been handed to process_packet
    var interrupts: nat

    ghost predicate Valid()
      reads this, buf
    {
      && buf.Length == CAPACITY && len <= CAPACITY
      && (phase != InIdle ==> csum == Checksum(buf[..len], len))
      && (phase == InHashLow ==> 0 <= hi < 16)
    }

    ghost function State(): State
      requires len <= buf.Length
      reads this, buf
    {
      match phase
      case InIdle => Idle
      case InData => InPayload(buf[..len])
      case InHashHigh => HashHigh(buf[..len])
      case InHashLow => HashLow(buf[..len], hi)
    }

    ghost function View(): Server
      requires len <= buf.Length
      reads this, buf
    {
      Server(State(), messages, interrupts, replies)
    }

    // packets_init
    constructor ()
      ensures Valid() && fresh(buf) && View() == Server(Idle, [], 0, [])
    {
      buf := new int[CAPACITY](_ => 0);
      phase, len, csum, hi, replies, messages, interrupts := InIdle, 0, 0, -1, [], [], 0;
    }

    // packets_reset
    method Reset()
      requires buf.Length == CAPACITY
      modifies this`phase, this`len, this`csum, this`hi
      ensures Valid() && State() == Idle && len == 0
    {
      phase, len, csum, hi := InIdle, 0, 0, -1;
    }

    // packets_feed_byte
    method FeedByte(b: int) returns (result: Result)
      requires Valid()
      modifies this`phase, this`len, this`csum, this`hi, this`replies, buf
      ensures Valid() && Stepped(State(), result, replies)
           == Step(old(State()), b).(replies := old(replies) + Step(old(State()), b).replies)
    {
      result := NotConsumed;
      match phase {
        case InIdle =>
          if b == START {
            phase, len, csum := InData, 0, 0;
            result := Consumed;
          } else if b == INTERRUPT {
            Reset();
            result := Interrupt;
          }
        case InData => result := FeedPayload(b);
        case InHashHigh =>
          var h := HexNibble(b);
          if h < 0 {
            replies := replies + [Nak];
            Reset();
          } else {
            hi, phase := h, InHashLow;
            result := Consumed;
          }
        case InHashLow =>
          var lo := HexNibble(b);
          if hi >= 0 && lo >= 0 && 16 * hi + lo == csum {
            if len < CAPACITY { buf[len] := 0; }
            replies := replies + [Ack];
            result := Complete;
          } else {
            replies := replies + [Nak];
            Reset();
          }
      }
    }

    method FeedPayload(b: int) returns (result: Result)
      requires Valid() && phase == InData
      modifies this`phase, this`len, this`csum, this`hi, this`replies, buf
      ensures Valid() && Stepped(State(), result, replies)
           == Step(old(State()), b).(replies := old(replies) + Step(old(State()), b).replies)
    {
      if b == HASH {
        phase := InHashHigh;
        return Consumed;
      }
      if len >= CAPACITY {
        replies := replies + [Nak];
        Reset();
        return NotConsumed;
      }
      ghost var data := buf[..len];
      buf[len] := b;
      csum := (csum + b) % 256;
      len := len + 1;
      assert buf[..len] == data + [b];
      ChecksumAppend(data, b);
      result := Consumed;
    }

    // The loop of the server over the bytes of a chunk
    method Receive(inbuf: seq<int>)
      requires Valid()
      modifies this, buf
      ensures Valid() && View() == ReceivedAll(old(View()), inbuf)
    {
      ghost var v := View();
      var i := 0;
      while i < |inbuf|
        invariant i <= |inbuf| && Valid() && View() == ReceivedTo(v, inbuf, i)
      {
        ReceiveByte(inbuf[i]);
        i := i + 1;
      }
    }

    // The body of the loop
    method ReceiveByte(b: int)
      requires Valid()
      modifies this, buf
      ensures Valid() && View() == Received(old(View()), b)
    {
      var result := FeedByte(b);
      if result == Complete {
        messages := messages + [buf[..len]];
        Reset();
      } else if result == Interrupt {
        interrupts := interrupts + 1;
      }
    }
  }
}
