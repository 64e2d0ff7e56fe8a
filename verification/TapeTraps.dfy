/** tape_traps.c: saving and loading blocks of a tape in place of the routines of the ROM. */
module TapeTraps {

  type byte = x: int | 0 <= x < 256

  // Exclusive or, bit by bit
  function Xor(x: nat, y: nat): (z: nat) {
    if x == 0 && y == 0 then 0 else (x + y) % 2 + 2 * Xor(x / 2, y / 2)
  }

  lemma {:induction false} XorFits(x: nat, y: nat, limit: nat)
    requires x < Power(limit) && y < Power(limit)
    ensures Xor(x, y) < Power(limit)
  {
    if limit > 0 { XorFits(x / 2, y / 2, limit - 1); }
  }

  function Power(n: nat): nat { if n == 0 then 1 else 2 * Power(n - 1) }

  function XorByte(x: byte, y: byte): byte {
    XorFits(x, y, 8);
    assert Power(8) == 256;
    Xor(x, y)
  }

  lemma {:induction false} XorIsZero(x: nat, y: nat)
    ensures Xor(x, y) == 0 <==> x == y
  {
    if x != 0 || y != 0 { XorIsZero(x / 2, y / 2); }
  }

  lemma XorParts(x: nat, y: nat)
    ensures Xor(x, y) % 2 == (x + y) % 2 && Xor(x, y) / 2 == Xor(x / 2, y / 2)
  {
    Joined((x + y) % 2, Xor(x / 2, y / 2));
  }

  lemma Joined(bit: nat, rest: nat)
    requires bit < 2
    ensures (bit + 2 * rest) % 2 == bit && (bit + 2 * rest) / 2 == rest
  {
  }

  lemma {:induction false} XorCommutes(x: nat, y: nat)
    ensures Xor(x, y) == Xor(y, x)
  {
    if x != 0 || y != 0 { XorCommutes(x / 2, y / 2); }
  }

  // An operand cannot be changed without changing the result
  lemma {:induction false} XorChanges(x: nat, y: nat, z: nat)
    requires x != y
    ensures Xor(x, z) != Xor(y, z)
  {
    XorParts(x, z);
    XorParts(y, z);
    if x / 2 != y / 2 { XorChanges(x / 2, y / 2, z / 2); } else { Remainders(x, y, z); }
  }

  lemma Remainders(x: nat, y: nat, z: nat)
    requires x != y && x / 2 == y / 2
    ensures (x + z) % 2 != (y + z) % 2
  {
  }

  const SPACE: nat := 65536

  // The i-th address behind another, going round the end of memory
  function Address(from: nat, i: nat): (a: nat)
    ensures a < SPACE
  {
    (from + i) % SPACE
  }

  // Where an address lies behind another
  function Offset(address: nat, from: nat): (k: nat)
    requires address < SPACE && from < SPACE
    ensures k < SPACE && Address(from, k) == address
  {
    (address - from) % SPACE
  }

  lemma OffsetIs(from: nat, k: nat)
    requires from < SPACE && k < SPACE
    ensures Offset(Address(from, k), from) == k
  {
  }

  // The bytes of memory from an address on
  function Stretch(memory: seq<byte>, from: nat, n: nat): (s: seq<byte>)
    requires |memory| == SPACE
    ensures |s| == n
  {
    seq(n, i requires 0 <= i < n => memory[Address(from, i)])
  }

  // The exclusive or of the first n bytes
  function Parity(data: seq<byte>, n: nat): byte
    requires n <= |data|
  {
    if n == 0 then 0 else XorByte(Parity(data, n - 1), data[n - 1])
  }

  lemma {:induction false} XorNothing(x: nat)
    ensures Xor(0, x) == x
  {
    if x > 0 { XorNothing(x / 2); }
  }

  lemma ParityOfOne(data: seq<byte>)
    requires data != []
    ensures Parity(data, 1) == data[0]
  {
    XorNothing(data[0]);
    assert Parity(data, 0) == 0;
  }

  // ---------------------------------------------------------------- what is saved

  // Flag, data and parity
  function Block(flag: byte, body: seq<byte>): (block: seq<byte>)
    ensures |block| == |body| + 2
  {
    [flag] + body + [Parity([flag] + body, 1 + |body|)]
  }

  lemma {:induction false} ParityPrefix(data: seq<byte>, more: seq<byte>, n: nat)
    requires n <= |data| && n <= |more| && forall i :: 0 <= i < n ==> data[i] == more[i]
    ensures Parity(data, n) == Parity(more, n)
  {
    if n > 0 { ParityPrefix(data, more, n - 1); }
  }

  // The exclusive or of a whole block is 0
  lemma BlockParity(flag: byte, body: seq<byte>)
    ensures Parity(Block(flag, body), |body| + 2) == 0
  {
    assert |[flag] + body| == |body| + 1;
    ParityClosed([flag] + body);
  }

  lemma ParityClosed(data: seq<byte>)
    ensures Parity(data + [Parity(data, |data|)], |data| + 1) == 0
  {
    var p, n := Parity(data, |data|), |data|;
    ParityPrefix(data, data + [p], n);
    XorIsZero(p, p);
  }

  // Changing a single byte shows
  lemma {:induction false} ParityChanges(data: seq<byte>, other: seq<byte>, i: nat, n: nat)
    requires i < n <= |data| == |other| && data[i] != other[i]
    requires forall j :: 0 <= j < |data| && j != i ==> data[j] == other[j]
    ensures Parity(data, n) != Parity(other, n)
  {
    if i == n - 1 {
      ParityPrefix(data, other, n - 1);
      XorChanges(data[i], other[i], Parity(data, i));
      XorCommutes(data[i], Parity(data, i));
      XorCommutes(other[i], Parity(data, i));
    } else {
      ParityChanges(data, other, i, n - 1);
      XorChanges(Parity(data, n - 1), Parity(other, n - 1), data[n - 1]);
    }
  }

  // ---------------------------------------------------------------- what loading does

  // The registers that the routine leaves a result in. Of the flags only carry is told.
  datatype Registers = Registers(a: byte, carry: bool, b: byte, c: byte, h: byte, l: byte, de: nat, ix: nat, a': byte,
                                 carry': bool)

  // How many of the first n bytes the memory holds in their place, before one that it does not
  function Agreeing(memory: seq<byte>, from: nat, data: seq<byte>, n: nat, i: nat): (k: nat)
    requires |memory| == SPACE && i <= n <= |data|
    ensures i <= k <= n && forall j :: i <= j < k ==> memory[Address(from, j)] == data[j]
    ensures k < n ==> memory[Address(from, k)] != data[k]
    decreases n - i
  {
    if i < n && memory[Address(from, i)] == data[i] then Agreeing(memory, from, data, n, i + 1) else i
  }

  lemma AgreeingAll(memory: seq<byte>, from: nat, data: seq<byte>, n: nat)
    requires |memory| == SPACE && n <= |data|
    ensures Agreeing(memory, from, data, n, 0) == n <==> Stretch(memory, from, n) == data[..n]
  {
    var k := Agreeing(memory, from, data, n, 0);
    var s := Stretch(memory, from, n);
    assert k < n ==> s[k] != data[..n][k];
    forall i | 0 <= i < n && k == n ensures s[i] == data[..n][i] { assert memory[Address(from, i)] == data[i]; }
  }

  // Memory after n bytes were written to it. Only RAM changes.
  function Copied(memory: seq<byte>, ram: seq<bool>, from: nat, data: seq<byte>, n: nat): (m: seq<byte>)
    requires |memory| == |ram| == SPACE && from < SPACE && n <= |data|
    ensures |m| == SPACE
  {
    seq(SPACE, a requires 0 <= a < SPACE => if ram[a] && Offset(a, from) < n then data[Offset(a, from)] else memory[a])
  }

  datatype Outcome = Outcome(r: Registers, memory: seq<byte>, consumed: nat)

  // How many data bytes of a block are loaded
  function Available(data: seq<byte>, de: nat): (n: nat)
    requires data != []
    ensures n <= de && n < |data|
  {
    if |data| - 1 > de then de else |data| - 1
  }

  // The result of the routine for a block of the tape, that of the ROM's LD-BYTES
  function Loaded(r: Registers, memory: seq<byte>, ram: seq<bool>, data: seq<byte>): Outcome
    requires |memory| == |ram| == SPACE && r.ix < SPACE && r.de < SPACE
  {
    if data == [] then Outcome(r.(l := 1, carry := false, carry' := true), memory, 0)
    else if r.de == 0 then
      Outcome(r.(a := data[0], carry := data[0] == 0, b := 0xb0, c := 1, h := data[0], l := data[0]), memory, 1)
    else if r.a' != data[0] then
      Outcome(r.(a := XorByte(r.a', data[0]), carry := false, c := 1, h := data[0], l := data[0],
                 a' := 1, carry' := true),
              memory, 1)
    else LoadedBytes(r.(a := 0, a' := 1, carry' := true), memory, ram, data, !r.carry')
  }

  // The same once the flag has been found to be the one wanted
  function LoadedBytes(r: Registers, memory: seq<byte>, ram: seq<bool>, data: seq<byte>, verify: bool): Outcome
    requires |memory| == |ram| == SPACE && r.ix < SPACE && 0 < r.de < SPACE && data != []
  {
    var n := Available(data, r.de);
    var k := if verify then Agreeing(memory, r.ix, data[1..], n, 0) else n;
    var m := if verify then memory else Copied(memory, ram, r.ix, data[1..], n);
    var moved := r.(c := 1, de := r.de - k, ix := Address(r.ix, k));
    if k < n then
      Outcome(moved.(carry := false, h := Parity(data, k + 2), l := data[k + 1]), m, k + 2)
    else if n == r.de && n + 1 < |data| then
      var parity := Parity(data, n + 2);
      Outcome(moved.(a := parity, carry := parity == 0, b := 0xb0, h := parity, l := data[n]), m, n + 2)
    else
      Outcome(moved.(carry := false, b := 0, h := Parity(data, n + 1), l := 1), m, n + 1)
  }

  // Without a flag byte, with no data asked for, or with another flag than the one wanted, memory and
  // the registers that count the data stay as they are. Only with no data asked for can all be well.
  lemma NothingLoaded(r: Registers, memory: seq<byte>, ram: seq<bool>, data: seq<byte>)
    requires |memory| == |ram| == SPACE && r.ix < SPACE && r.de < SPACE
    requires data == [] || r.de == 0 || data[0] != r.a'
    ensures var after := Loaded(r, memory, ram, data);
            && after.memory == memory && after.r.ix == r.ix && after.r.de == r.de
            && after.consumed == (if data == [] then 0 else 1)
            && after.r.carry == (data != [] && r.de == 0 && data[0] == 0)
            && (if data == [] then after.r == r.(carry := false, l := 1, carry' := true)
                else after.r.c == 1 && after.r.h == after.r.l == data[0] && (after.r.a == 0 ==> r.de == 0))
  {
    if data != [] { XorIsZero(r.a', data[0]); }
  }

  // With the right flag as many bytes are loaded as there are, up to the number asked for. Fewer
  // of them, or no parity byte, is a failure.
  lemma LoadsWhatIsThere(r: Registers, memory: seq<byte>, ram: seq<bool>, data: seq<byte>)
    requires |memory| == |ram| == SPACE && r.ix < SPACE && 0 < r.de < SPACE
    requires data != [] && data[0] == r.a' && r.carry'
    ensures var after, n := Loaded(r, memory, ram, data), if |data| - 1 < r.de then |data| - 1 else r.de;
            && after.r.de == r.de - n && after.r.ix == (r.ix + n) % 65536
            && after.consumed == (if r.de + 1 < |data| then n + 2 else n + 1)
            && (|data| < r.de + 2 ==> !after.r.carry && after.r.b == 0 && after.r.l == 1)
            && forall a {:trigger after.memory[a]} :: 0 <= a < SPACE ==>
                 after.memory[a] == if ram[a] && Offset(a, r.ix) < n then data[1 + Offset(a, r.ix)] else memory[a]
  {
  }

  // Verifying goes on up to the first byte that memory does not hold, and tells it
  lemma VerifiesWhatIsThere(r: Registers, memory: seq<byte>, ram: seq<bool>, data: seq<byte>)
    requires |memory| == |ram| == SPACE && r.ix < SPACE && 0 < r.de < SPACE
    requires data != [] && data[0] == r.a' && !r.carry'
    ensures var after, n := Loaded(r, memory, ram, data), if |data| - 1 < r.de then |data| - 1 else r.de;
            var k := r.de - after.r.de;
            && 0 <= k <= n && after.memory == memory && after.r.ix == (r.ix + k) % 65536
            && (forall j :: 0 <= j < k ==> memory[Address(r.ix, j)] == data[1 + j])
            && (k < n ==> memory[Address(r.ix, k)] != data[1 + k] && after.r.l == data[1 + k]
                          && !after.r.carry && after.consumed == k + 2)
  {
    var k := r.de - Loaded(r, memory, ram, data).r.de;
    forall j | 0 <= j < k ensures memory[Address(r.ix, j)] == data[1 + j] {
      assert data[1..][j] == data[1 + j];
    }
  }

  // Carry says that all went well: the flag is the one wanted, all the bytes asked for are
  // there and a parity byte too, the parity is right, and when verifying the memory agrees
  lemma CarryMeansAllWell(r: Registers, memory: seq<byte>, ram: seq<bool>, data: seq<byte>)
    requires |memory| == |ram| == SPACE && r.ix < SPACE && 0 < r.de < SPACE
    ensures Loaded(r, memory, ram, data).r.carry <==>
              && |data| >= r.de + 2 && data[0] == r.a' && Parity(data, r.de + 2) == 0
              && (r.carry' || Stretch(memory, r.ix, r.de) == data[1..r.de + 1])
  {
    if |data| >= r.de + 2 && data[0] == r.a' { LongEnough(r, memory, ram, data); }
  }

  lemma LongEnough(r: Registers, memory: seq<byte>, ram: seq<bool>, data: seq<byte>)
    requires |memory| == |ram| == SPACE && r.ix < SPACE && 0 < r.de < SPACE
    requires |data| >= r.de + 2 && data[0] == r.a'
    ensures Loaded(r, memory, ram, data).r.carry <==>
              Parity(data, r.de + 2) == 0 && (r.carry' || Stretch(memory, r.ix, r.de) == data[1..r.de + 1])
  {
    AgreeingAll(memory, r.ix, data[1..], r.de);
    assert data[1..][..r.de] == data[1..r.de + 1];
  }

  // A block that was saved is loaded with the same flag and length: all well, every byte is
  // where it is wanted unless there is no RAM, and nothing else has changed
  lemma SaveThenLoad(r: Registers, memory: seq<byte>, ram: seq<bool>, flag: byte, body: seq<byte>)
    requires |memory| == |ram| == SPACE && r.ix < SPACE && 0 < r.de < SPACE
    requires |body| == r.de && r.a' == flag && r.carry'
    ensures var after := Loaded(r, memory, ram, Block(flag, body));
            && after.r.carry && after.r.de == 0 && after.r.ix == Address(r.ix, r.de) && after.r.h == 0
            && after.consumed == r.de + 2
            && forall a {:trigger after.memory[a]} :: 0 <= a < SPACE ==>
                 after.memory[a] == if ram[a] && Offset(a, r.ix) < r.de then body[Offset(a, r.ix)] else memory[a]
  {
    var block := Block(flag, body);
    BlockParity(flag, body);
    CarryMeansAllWell(r, memory, ram, block);
    assert block[1..][..r.de] == body;
    forall k | 0 <= k < r.de ensures block[1..][k] == body[k] {}
  }

  // Where a whole stretch is RAM, loading fills it with what was saved
  lemma LoadedStretch(r: Registers, memory: seq<byte>, ram: seq<bool>, flag: byte, body: seq<byte>)
    requires |memory| == |ram| == SPACE && r.ix < SPACE && 0 < r.de < SPACE
    requires |body| == r.de && r.a' == flag && r.carry'
    requires forall i {:trigger Address(r.ix, i)} :: 0 <= i < r.de ==> ram[Address(r.ix, i)]
    ensures Stretch(Loaded(r, memory, ram, Block(flag, body)).memory, r.ix, r.de) == body
  {
    SaveThenLoad(r, memory, ram, flag, body);
    var memory' := Loaded(r, memory, ram, Block(flag, body)).memory;
    forall i | 0 <= i < r.de ensures memory'[Address(r.ix, i)] == body[i] { OffsetIs(r.ix, i); }
  }

  // And verifying succeeds as long as the memory still is what was saved
  lemma SaveThenVerify(r: Registers, memory: seq<byte>, ram: seq<bool>, flag: byte, body: seq<byte>)
    requires |memory| == |ram| == SPACE && r.ix < SPACE && 0 < r.de < SPACE
    requires |body| == r.de && r.a' == flag && !r.carry'
    ensures Loaded(r, memory, ram, Block(flag, body)).r.carry <==> Stretch(memory, r.ix, r.de) == body
    ensures Loaded(r, memory, ram, Block(flag, body)).memory == memory
  {
    var block := Block(flag, body);
    BlockParity(flag, body);
    CarryMeansAllWell(r, memory, ram, block);
    assert block[1..r.de + 1] == body;
  }

  // A block of which one byte was damaged is never loaded as if all were well
  lemma DamageShows(r: Registers, memory: seq<byte>, ram: seq<bool>, flag: byte, body: seq<byte>, i: nat, wrong: byte)
    requires |memory| == |ram| == SPACE && r.ix < SPACE && 0 < r.de < SPACE && |body| == r.de
    requires i < |body| + 2 && wrong != Block(flag, body)[i]
    ensures !Loaded(r, memory, ram, Block(flag, body)[i := wrong]).r.carry
  {
    var block := Block(flag, body);
    BlockParity(flag, body);
    ParityChanges(block, block[i := wrong], i, r.de + 2);
    CarryMeansAllWell(r, memory, ram, block[i := wrong]);
  }

  lemma SavedBlock(flag: byte, body: seq<byte>, block: seq<byte>, parity: byte)
    requires |block| == |body| + 2 && block[0] == flag && (forall j :: 0 <= j < |body| ==> block[j + 1] == body[j])
    requires parity == block[|body| + 1] == Parity([flag] + body, |body| + 1)
    ensures block == Block(flag, body)
  {
  }

  lemma CopiedNone(memory: seq<byte>, ram: seq<bool>, from: nat, data: seq<byte>)
    requires |memory| == |ram| == SPACE && from < SPACE
    ensures Copied(memory, ram, from, data, 0) == memory
  {
  }

  lemma CopiedOneMore(memory: seq<byte>, ram: seq<bool>, from: nat, data: seq<byte>, n: nat)
    requires |memory| == |ram| == SPACE && from < SPACE && n < |data| && n < SPACE
    ensures var a, m := Address(from, n), Copied(memory, ram, from, data, n);
            Copied(memory, ram, from, data, n + 1) == if ram[a] then m[a := data[n]] else m
  {
    OffsetIs(from, n);
    var a, m := Address(from, n), Copied(memory, ram, from, data, n);
    var m' := if ram[a] then m[a := data[n]] else m;
    forall x | 0 <= x < SPACE ensures Copied(memory, ram, from, data, n + 1)[x] == m'[x] {
      assert Offset(x, from) == n ==> x == a;
    }
  }

  // ---------------------------------------------------------------- the traps

  class Machine {
    var a: byte
    var carry: bool
    var b: byte
    var c: byte
    var h: byte
    var l: byte
    var de: nat
    var ix: nat
    var a': byte
    var carry': bool
    const memory: array<byte>
    const ram: seq<bool>             // where writes have an effect

    var tape: seq<seq<byte>>         // the blocks appended

    ghost predicate Valid()
      reads this
    {
      memory.Length == |ram| == SPACE && ix < SPACE && de < SPACE
    }

    ghost function Regs(): Registers
      reads this
    {
      Registers(a, carry, b, c, h, l, de, ix, a', carry')
    }

    constructor (memory: array<byte>, ram: seq<bool>)
      requires memory.Length == |ram| == SPACE
      ensures Valid() && this.memory == memory && this.ram == ram && tape == []
    {
      this.memory, this.ram, tape := memory, ram, [];
      a, carry, b, c, h, l, de, ix, a', carry' := 0, false, 0, 0, 0, 0, 0, 0, 0, false;
    }

    // tape_save_trap, when traps are active
    method Save()
      requires Valid()
      modifies this`tape
      ensures tape == old(tape) + [Block(a, Stretch(memory[..], ix, de))]
    {
      var data := new byte[de + 2];
      var parity := a;
      data[0] := parity;
      ghost var was := memory[..];
      ghost var body := Stretch(was, ix, de);
      ParityOfOne([a] + body);
      var i := 0;
      while i < de
        invariant i <= de && data[0] == a && forall j :: 0 <= j < i ==> data[j + 1] == body[j]
        invariant parity == Parity([a] + body, i + 1) && memory[..] == was && tape == old(tape)
      {
        var x := memory[Address(ix, i)];
        parity := XorByte(parity, x);
        data[i + 1] := x;
        i := i + 1;
      }
      data[de + 1] := parity;
      var block := data[..];
      SavedBlock(a, body, block, parity);
      tape := tape + [block];
      assert memory[..] == was;
    }

    // trap_load_finish
    method LoadFinish(parity: byte, processed: nat)
      requires Valid() && processed <= de
      modifies this`c, this`h, this`de, this`ix
      ensures c == 1 && h == parity && de == old(de) - processed && ix == Address(old(ix), processed)
    {
      c, h := 1, parity;
      de, ix := de - processed, (ix + processed) % SPACE;
    }

    // trap_load_fail
    method LoadFail(parity: byte, processed: nat)
      requires Valid() && processed <= de
      modifies this`carry, this`c, this`h, this`de, this`ix
      ensures !carry && c == 1 && h == parity && de == old(de) - processed && ix == Address(old(ix), processed)
    {
      carry := false;
      LoadFinish(parity, processed);
    }

    // trap_verify_bytes, of a block whose flag has been read
    method VerifyBytes(block: seq<byte>, read: nat) returns (parity: byte, processed: nat, failed: bool)
      requires Valid() && block != [] && read < |block|
      modifies this`l
      ensures processed == Agreeing(memory[..], ix, block[1..], read, 0) && failed == (processed < read)
      ensures parity == Parity(block, if failed then processed + 2 else processed + 1)
      ensures l == if failed then block[processed + 1] else old(l)
    {
      var data := block[1..];
      ParityOfOne(block);
      ghost var m := memory[..];
      parity, processed, failed := block[0], 0, false;
      while processed < read
        invariant processed <= read && parity == Parity(block, processed + 1)
        invariant Agreeing(m, ix, data, read, 0) == Agreeing(m, ix, data, read, processed)
      {
        parity := XorByte(parity, data[processed]);
        assert memory[Address(ix, processed)] == m[Address(ix, processed)];
        if data[processed] != memory[Address(ix, processed)] {
          l := data[processed];
          failed := true;
          return;
        }
        processed := processed + 1;
      }
    }

    // trap_copy_bytes
    method CopyBytes(block: seq<byte>, read: nat) returns (parity: byte)
      requires Valid() && block != [] && read < |block| && read <= de
      modifies memory
      ensures memory[..] == Copied(old(memory[..]), ram, ix, block[1..], read)
      ensures parity == Parity(block, read + 1)
    {
      var data := block[1..];
      ParityOfOne(block);
      ghost var was := memory[..];
      parity := block[0];
      var processed := 0;
      CopiedNone(was, ram, ix, data);
      while processed < read
        invariant processed <= read && parity == Parity(block, processed + 1)
        invariant memory[..] == Copied(was, ram, ix, data, processed)
      {
        parity := XorByte(parity, data[processed]);
        CopiedOneMore(was, ram, ix, data, processed);
        WriteByte(Address(ix, processed), data[processed]);
        processed := processed + 1;
      }
    }

    // writebyte_internal
    method WriteByte(address: nat, x: byte)
      requires Valid() && address < SPACE
      modifies memory
      ensures memory[..] == if ram[address] then old(memory[..])[address := x] else old(memory[..])
    {
      if ram[address] { memory[address] := x; }
    }

    // trap_check_parity
    method CheckParity(block: seq<byte>, read: nat, parity: byte, consumed: nat) returns (consumed': nat)
      requires Valid() && block != [] && read < |block| && read <= de && parity == Parity(block, read + 1)
      modifies this`a, this`carry, this`b, this`c, this`h, this`l, this`de, this`ix
      ensures c == 1 && de == old(de) - read && ix == Address(old(ix), read)
      ensures if read == old(de) && read + 1 < |block|
              then a == h == Parity(block, read + 2) && carry == (a == 0)
                   && b == 0xb0 && l == old(l) && consumed' == read + 2
              else a == old(a) && !carry && b == 0 && l == 1 && h == parity && consumed' == consumed
    {
      consumed' := consumed;
      if de == read && read + 1 < |block| {
        a := XorByte(parity, block[read + 1]);
        consumed' := read + 2;
        carry := a < 1;
        b := 0xb0;
        LoadFinish(a, read);
        return;
      }
      b := 255;
      l := 1;
      b := (b + 1) % 256;
      LoadFail(parity, read);
    }

    // tape_trap_load_block
    method LoadBlock(block: seq<byte>) returns (consumed: nat)
      requires Valid()
      modifies this`a, this`carry, this`b, this`c, this`h, this`l, this`de, this`ix, this`a', this`carry', memory
      ensures Valid() && Outcome(Regs(), memory[..], consumed) == Loaded(old(Regs()), old(memory[..]), ram, block)
    {
      consumed := 0;
      if block == [] {
        l, carry', carry := 1, true, false;
      } else if de == 0 {
        consumed := LoadNothing(block[0]);
      } else {
        consumed := LoadSome(block);
      }
    }

    // The part of tape_trap_load_block for no data at all
    method LoadNothing(flag: byte) returns (consumed: nat)
      requires Valid() && de == 0
      modifies this`a, this`carry, this`b, this`c, this`h, this`l, this`de, this`ix
      ensures Regs() == old(Regs()).(a := flag, carry := flag == 0, b := 0xb0, c := 1, h := flag, l := flag)
      ensures consumed == 1
    {
      l, consumed := flag, 1;
      b, a := 0xb0, flag;
      carry := a < 1;
      LoadFinish(flag, 0);
    }

    // And for some
    method LoadSome(block: seq<byte>) returns (consumed: nat)
      requires Valid() && block != [] && de > 0
      modifies this`a, this`carry, this`b, this`c, this`h, this`l, this`de, this`ix, this`a', this`carry', memory
      ensures Valid() && Outcome(Regs(), memory[..], consumed) == Loaded(old(Regs()), old(memory[..]), ram, block)
    {
      var read := if |block| - 1 > de then de else |block| - 1;
      var verify, requested := !carry', a';
      a := 0;
      var parity := block[0];
      l := parity;
      consumed := 1;
      a', carry' := 1, true;
      a := XorByte(requested, parity);
      XorIsZero(requested, parity);
      if a != 0 {
        LoadFail(parity, 0);
        return;
      }
      if read > 0 { l := block[read]; }
      consumed := LoadBytes(block, read, verify);
    }

    // The last part of tape_trap_load_block
    method LoadBytes(block: seq<byte>, read: nat, verify: bool) returns (consumed: nat)
      requires Valid() && block != [] && de > 0 && read == Available(block, de) && a == 0 && l == block[read]
      modifies this`a, this`carry, this`b, this`c, this`h, this`l, this`de, this`ix, memory
      ensures Valid()
      ensures Outcome(Regs(), memory[..], consumed) == LoadedBytes(old(Regs()), old(memory[..]), ram, block, verify)
    {
      if verify {
        consumed := Verify(block, read);
      } else {
        var parity := CopyBytes(block, read);
        consumed := CheckParity(block, read, parity, read + 1);
      }
    }

    method Verify(block: seq<byte>, read: nat) returns (consumed: nat)
      requires Valid() && block != [] && de > 0 && read == Available(block, de) && a == 0 && l == block[read]
      modifies this`a, this`carry, this`b, this`c, this`h, this`l, this`de, this`ix
      ensures Valid() && Outcome(Regs(), memory[..], consumed) == LoadedBytes(old(Regs()), memory[..], ram, block, true)
    {
      var parity, processed, failed := VerifyBytes(block, read);
      if failed {
        consumed := processed + 2;
        LoadFail(parity, processed);
      } else {
        consumed := CheckParity(block, read, parity, processed + 1);
      }
    }
  }
}
