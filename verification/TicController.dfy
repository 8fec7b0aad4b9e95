/**
 The register interface of the stepper motor controller
 (libs/HardwareAbstractionLayerImpl/Rpi/src/TicController.cpp): 32-bit values go out as little-endian
 words behind a command byte, and the state block comes back in reads of at most 15 bytes. The
 device is its register memory, which may change between any two reads, and any read may fail.
 */
module TicControllers {
  type Byte = x: int | 0 <= x < 0x100
  type Int32 = x: int | -0x8000_0000 <= x <= 0x7FFF_FFFF

  // ---------------------------------------------------------------------------------------------
  // Words

  /** The bytes of a 32-bit value, lowest first; shifting right floors, so `/` and `%` agree with `>>` and `& 0xff`. */
  function LittleEndian(value: int): (bytes: seq<Byte>)
    ensures |bytes| == 4
  {
    [value % 0x100, value / 0x100 % 0x100, value / 0x1_0000 % 0x100, value / 0x100_0000 % 0x100]
  }

  function DecodeUnsigned(bytes: seq<Byte>): int
    requires |bytes| == 4
  {
    var b0: int, b1: int, b2: int, b3: int := bytes[0], bytes[1], bytes[2], bytes[3];
    b0 + 0x100 * b1 + 0x1_0000 * b2 + 0x100_0000 * b3
  }

  /** The bytes read as a signed word, as the fields of the state block are. */
  function DecodeSigned(bytes: seq<Byte>): Int32
    requires |bytes| == 4
  {
    var u := DecodeUnsigned(bytes);
    if u < 0x8000_0000 then u else u - 0x1_0000_0000
  }

  lemma Nested(value: int)
    ensures value / 0x1_0000 == (value / 0x100) / 0x100
    ensures value / 0x100_0000 == (value / 0x1_0000) / 0x100
    ensures value / 0x1_0000_0000 == (value / 0x100_0000) / 0x100
  {
  }

  lemma DigitsOf(value: int)
    ensures DecodeUnsigned(LittleEndian(value)) == value % 0x1_0000_0000
  {
    Nested(value);
    var q1, q2 := value / 0x100, value / 0x1_0000;
    var q3, q4 := value / 0x100_0000, value / 0x1_0000_0000;
    var d0, d1, d2, d3 := value % 0x100, q1 % 0x100, q2 % 0x100, q3 % 0x100;
    assert value == 0x100 * q1 + d0 && q1 == 0x100 * q2 + d1 && q2 == 0x100 * q3 + d2 && q3 == 0x100 * q4 + d3;
    FourDigitsBelow(value, q4, d0 + 0x100 * d1 + 0x1_0000 * d2 + 0x100_0000 * d3);
  }

  lemma FourDigitsBelow(value: int, q: int, r: int)
    requires value == 0x1_0000_0000 * q + r && 0 <= r < 0x1_0000_0000
    ensures value % 0x1_0000_0000 == r
  {
  }

  /** Decoding undoes encoding, for every signed and every unsigned 32-bit value. */
  lemma DecodeInvertsEncode(value: int)
    requires -0x8000_0000 <= value <= 0xFFFF_FFFF
    ensures value <= 0x7FFF_FFFF ==> DecodeSigned(LittleEndian(value)) == value
    ensures value >= 0 ==> DecodeUnsigned(LittleEndian(value)) == value
  {
    DigitsOf(value);
    if value < 0 {
      FourDigitsBelow(value, -1, value + 0x1_0000_0000);
    } else {
      FourDigitsBelow(value, 0, value);
    }
  }

  lemma LowDigit(b: Byte, rest: int)
    ensures (b + 0x100 * rest) % 0x100 == b && (b + 0x100 * rest) / 0x100 == rest
  {
  }

  /** And encoding undoes decoding, for every four bytes. */
  lemma EncodeInvertsDecode(bytes: seq<Byte>)
    requires |bytes| == 4
    ensures LittleEndian(DecodeUnsigned(bytes)) == bytes
    ensures LittleEndian(DecodeSigned(bytes)) == bytes
  {
    FourDigits(bytes, 0);
    FourDigits(bytes, if DecodeUnsigned(bytes) < 0x8000_0000 then 0 else -1);
  }

  lemma FourDigits(bytes: seq<Byte>, k: int)
    requires |bytes| == 4
    ensures LittleEndian(DecodeUnsigned(bytes) + 0x1_0000_0000 * k) == bytes
  {
    var v3 := bytes[3] + 0x100 * k;
    var v2 := bytes[2] + 0x100 * v3;
    var v1 := bytes[1] + 0x100 * v2;
    var v0 := bytes[0] + 0x100 * v1;
    LowDigit(bytes[3], k);
    LowDigit(bytes[2], v3);
    LowDigit(bytes[1], v2);
    LowDigit(bytes[0], v1);
    assert v0 == DecodeUnsigned(bytes) + 0x1_0000_0000 * k;
    DividedTwice(v0, v1, v2);
    DividedThrice(v0, v2, v3);
  }

  lemma DividedTwice(v0: int, v1: int, v2: int)
    requires v0 / 0x100 == v1 && v1 / 0x100 == v2
    ensures v0 / 0x1_0000 == v2
  {
  }

  lemma DividedThrice(v0: int, v2: int, v3: int)
    requires v0 / 0x1_0000 == v2 && v2 / 0x100 == v3
    ensures v0 / 0x100_0000 == v3
  {
  }

  method WriteToBuffer(value: int, buffer: array<Byte>, offset: nat)
    requires offset + 4 <= buffer.Length
    modifies buffer
    ensures buffer[offset..offset + 4] == LittleEndian(value)
    ensures var b0: int, b1: int := buffer[offset], buffer[offset + 1];
            var b2: int, b3: int := buffer[offset + 2], buffer[offset + 3];
            b0 + 0x100 * b1 + 0x1_0000 * b2 + 0x100_0000 * b3 == value % 0x1_0000_0000
    ensures buffer[..offset] == old(buffer[..offset]) && buffer[offset + 4..] == old(buffer[offset + 4..])
  {
    DigitsOf(value);
    buffer[0 + offset] := value % 0x100;
    buffer[1 + offset] := value / 0x100 % 0x100;
    buffer[2 + offset] := value / 0x1_0000 % 0x100;
    buffer[3 + offset] := value / 0x100_0000 % 0x100;
  }

  const SET_TARGET_VELOCITY_COMMAND: Byte := 0xE3

  /** The five bytes `setTargetVelocity` sends. */
  method TargetVelocityCommand(velocity: Int32) returns (command: seq<Byte>)
    ensures |command| == 5 && command[0] == SET_TARGET_VELOCITY_COMMAND
    ensures DecodeSigned(command[1..]) == velocity
  {
    var commandData := new Byte[5](i requires 0 <= i < 5 => if i == 0 then SET_TARGET_VELOCITY_COMMAND else 0);
    WriteToBuffer(velocity, commandData, 1);
    DecodeInvertsEncode(velocity);
    command := commandData[..];
    assert command[0] == commandData[..1][0] == SET_TARGET_VELOCITY_COMMAND;
    assert command[1..] == commandData[1..5];
  }

  // ---------------------------------------------------------------------------------------------
  // The state block

  const MAX_BLOCK_SIZE: nat := 15

  /** One read request: the first register and the number of bytes. */
  datatype Request = Request(offset: nat, count: nat)

  function Blocks(size: nat): nat {
    (size + 14) / 15
  }

  /** The k-th request of a read of size bytes. */
  function BlockRequest(size: nat, k: nat): Request
    requires k < Blocks(size)
  {
    Request(15 * k, if size - 15 * k > 15 then 15 else size - 15 * k)
  }

  /** The device while a block is read: its 256 registers at each request, and which requests fail. */
  datatype Device = Device(memory: nat -> seq<Byte>, fails: nat -> bool)

  ghost predicate ValidDevice(device: Device) {
    forall k: nat :: |device.memory(k)| == 256
  }

  /**
   Reads a block, `state.Length` bytes from register 0, into `state`. Every byte comes from its own
   register, as it was at the request that covers it; a failed request ends the read.
   */
  method GetState(state: array<Byte>, device: Device) returns (ok: bool, requests: seq<Request>)
    requires ValidDevice(device)
    requires state.Length < 256 // asserted by the source
    modifies state
    ensures ok <==> forall k :: 0 <= k < Blocks(state.Length) ==> !device.fails(k)
    ensures |requests| <= Blocks(state.Length) && (ok ==> |requests| == Blocks(state.Length))
    ensures forall k :: 0 <= k < |requests| ==> requests[k] == BlockRequest(state.Length, k)
    ensures ok ==> forall i :: 0 <= i < state.Length ==> state[i] == device.memory(i / 15)[i]
    ensures !ok ==>
              && requests != [] && device.fails(|requests| - 1)
              && (forall i :: 0 <= i < state.Length && i < 15 * (|requests| - 1) ==> state[i] == device.memory(i / 15)[i])
              && (forall i :: 15 * (|requests| - 1) <= i < state.Length ==> state[i] == old(state[i]))
  {
    var remainingBytes := state.Length;
    var offset := 0;
    requests := [];
    while remainingBytes > 0
      invariant remainingBytes >= 0 && offset + remainingBytes == state.Length
      invariant |requests| <= Blocks(state.Length)
      invariant remainingBytes > 0 ==> offset == 15 * |requests|
      invariant remainingBytes == 0 ==> |requests| == Blocks(state.Length)
      invariant forall k :: 0 <= k < |requests| ==> !device.fails(k) && requests[k] == BlockRequest(state.Length, k)
      invariant forall i :: 0 <= i < offset ==> state[i] == device.memory(i / 15)[i]
      invariant forall i :: offset <= i < state.Length ==> state[i] == old(state[i])
      decreases remainingBytes
    {
      var nextBytes := if remainingBytes > MAX_BLOCK_SIZE then MAX_BLOCK_SIZE else remainingBytes;
      var k := |requests|;
      requests := requests + [Request(offset, nextBytes)];
      if device.fails(k) {
        return false, requests;
      }
      var buffer := device.memory(k)[offset..offset + nextBytes];
      forall i | offset <= i < offset + nextBytes ensures i / 15 == k {
        BlockOf(i, k);
      }
      CopyInto(state, offset, buffer);
      remainingBytes := remainingBytes - nextBytes;
      offset := offset + nextBytes;
    }
    ok := true;
  }

  lemma BlockOf(i: nat, k: nat)
    requires 15 * k <= i < 15 * k + 15
    ensures i / 15 == k
  {
  }

  method CopyInto(state: array<Byte>, offset: nat, buffer: seq<Byte>)
    requires offset + |buffer| <= state.Length
    modifies state
    ensures forall i :: 0 <= i < state.Length ==>
              state[i] == if offset <= i < offset + |buffer| then buffer[i - offset] else old(state[i])
  {
    for i := 0 to |buffer|
      invariant forall j :: 0 <= j < state.Length ==>
                  state[j] == if offset <= j < offset + i then buffer[j - offset] else old(state[j])
    {
      state[offset + i] := buffer[i];
    }
  }

  /** The requests are never longer than 15 bytes, follow one another, and end with the block. */
  lemma RequestsTile(size: nat, k: nat)
    requires k < Blocks(size)
    ensures var r := BlockRequest(size, k);
            && 1 <= r.count <= MAX_BLOCK_SIZE
            && (k == 0 ==> r.offset == 0)
            && (k + 1 < Blocks(size) ==> BlockRequest(size, k + 1).offset == r.offset + r.count)
            && (k + 1 == Blocks(size) ==> r.offset + r.count == size)
  {
  }

  /** Every byte is covered by exactly one request. */
  lemma CoveredOnce(size: nat, i: nat, k: nat)
    requires i < size && k < Blocks(size)
    ensures i / 15 < Blocks(size)
    ensures var r := BlockRequest(size, k);
            r.offset <= i < r.offset + r.count <==> k == i / 15
  {
    assert i == 15 * (i / 15) + i % 15;
    if k < i / 15 {
      assert 15 * k + 15 <= 15 * (i / 15);
    } else if k > i / 15 {
      assert 15 * (i / 15) + 15 <= 15 * k;
    }
  }

  /** With memory that does not change meanwhile, a successful read is exactly that memory. */
  method GetUnchangedState(state: array<Byte>, memory: seq<Byte>, fails: nat -> bool) returns (ok: bool)
    requires |memory| == 256 && state.Length < 256
    modifies state
    ensures ok <==> forall k :: 0 <= k < Blocks(state.Length) ==> !fails(k)
    ensures ok ==> state[..] == memory[..state.Length]
  {
    var requests;
    ok, requests := GetState(state, Device(_ => memory, fails));
  }

  // ---------------------------------------------------------------------------------------------
  // Fields of the block

  /** The size of the packed state structure, and where some of its 32-bit fields stand. */
  const STATE_SIZE: nat := 42
  const TARGET_VELOCITY_OFFSET: nat := 14
  const CURRENT_POSITION_OFFSET: nat := 34
  const CURRENT_VELOCITY_OFFSET: nat := 38

  function Field(state: seq<Byte>, offset: nat): Int32
    requires offset + 4 <= |state|
  {
    DecodeSigned(state[offset..offset + 4])
  }

  /** What a successful read of the whole structure delivers, from a memory that may change meanwhile. */
  function ReadBack(memory: nat -> seq<Byte>): (state: seq<Byte>)
    requires forall k: nat :: |memory(k)| == 256
    ensures |state| == STATE_SIZE
    ensures forall i :: 0 <= i < STATE_SIZE ==> state[i] == memory(i / 15)[i]
  {
    seq(STATE_SIZE, i requires 0 <= i < STATE_SIZE => memory(i / 15)[i])
  }

  /** A field is read as it stood at one instant if it lies within one block ... */
  lemma FieldWithinBlockIsWhole(memory: nat -> seq<Byte>, offset: nat)
    requires forall k: nat :: |memory(k)| == 256
    requires offset + 4 <= STATE_SIZE && offset / 15 == (offset + 3) / 15
    ensures Field(ReadBack(memory), offset) == Field(memory(offset / 15), offset)
  {
    var k := offset / 15;
    assert 15 * k <= offset && offset + 3 < 15 * k + 15;
    forall i | offset <= i < offset + 4 ensures ReadBack(memory)[i] == memory(k)[i] {
      BlockOf(i, k);
    }
    assert ReadBack(memory)[offset..offset + 4] == memory(k)[offset..offset + 4];
  }

  /** ... as the current position and velocity do. */
  lemma VelocityIsWhole(memory: nat -> seq<Byte>)
    requires forall k: nat :: |memory(k)| == 256
    ensures Field(ReadBack(memory), CURRENT_VELOCITY_OFFSET) == Field(memory(2), CURRENT_VELOCITY_OFFSET)
    ensures Field(ReadBack(memory), CURRENT_POSITION_OFFSET) == Field(memory(2), CURRENT_POSITION_OFFSET)
  {
    FieldWithinBlockIsWhole(memory, CURRENT_VELOCITY_OFFSET);
    FieldWithinBlockIsWhole(memory, CURRENT_POSITION_OFFSET);
  }

  /** The bytes of a field, as the register held them at one instant. */
  function FieldBytes(memory: seq<Byte>, offset: nat): seq<Byte>
    requires offset + 4 <= |memory|
  {
    memory[offset..offset + 4]
  }

  lemma FieldDeterminesBytes(a: seq<Byte>, b: seq<Byte>, offset: nat)
    requires offset + 4 <= |a| && offset + 4 <= |b|
    ensures Field(a, offset) == Field(b, offset) <==> FieldBytes(a, offset) == FieldBytes(b, offset)
  {
    EncodeInvertsDecode(FieldBytes(a, offset));
    EncodeInvertsDecode(FieldBytes(b, offset));
  }

  /** Where the block that holds the first byte of a field ends. */
  function BlockEnd(offset: nat): nat {
    15 * (offset / 15 + 1)
  }

  /** A field that crosses a block is read with its first bytes from the one instant and the others from the next. */
  lemma CrossingFieldBytes(memory: nat -> seq<Byte>, offset: nat)
    requires forall k: nat :: |memory(k)| == 256
    requires offset + 4 <= STATE_SIZE && offset / 15 != (offset + 3) / 15
    ensures offset < BlockEnd(offset) < offset + 4
    ensures FieldBytes(ReadBack(memory), offset)
         == memory(offset / 15)[offset..BlockEnd(offset)] + memory(offset / 15 + 1)[BlockEnd(offset)..offset + 4]
  {
    var k, cut, state := offset / 15, BlockEnd(offset), ReadBack(memory);
    CrossingEnd(offset);
    forall i | offset <= i < offset + 4 ensures state[i] == if i < cut then memory(k)[i] else memory(k + 1)[i] {
      BlockOf(i, if i < cut then k else k + 1);
    }
    JoinedParts(state, memory(k), memory(k + 1), offset, cut);
  }

  lemma CrossingEnd(offset: nat)
    requires offset / 15 != (offset + 3) / 15
    ensures offset < BlockEnd(offset) < offset + 4
  {
  }

  lemma JoinedParts(state: seq<Byte>, first: seq<Byte>, second: seq<Byte>, offset: nat, cut: nat)
    requires offset <= cut <= offset + 4 && offset + 4 <= |state| && offset + 4 <= |first| && offset + 4 <= |second|
    requires forall i :: offset <= i < offset + 4 ==> state[i] == if i < cut then first[i] else second[i]
    ensures FieldBytes(state, offset) == first[offset..cut] + second[cut..offset + 4]
  {
  }

  /**
   For every memory, and every field that crosses a block: what is read is the value the field had at
   one of the two instants exactly when its part in the one block, or its part in the other, did not
   differ between them. Otherwise the value is torn.
   */
  lemma CrossingFieldIsWholeIff(memory: nat -> seq<Byte>, offset: nat)
    requires forall k: nat :: |memory(k)| == 256
    requires offset + 4 <= STATE_SIZE && offset / 15 != (offset + 3) / 15
    ensures var k, cut := offset / 15, BlockEnd(offset);
            var f := Field(ReadBack(memory), offset);
            offset < cut < offset + 4 &&
            (f == Field(memory(k), offset) || f == Field(memory(k + 1), offset) <==>
             memory(k)[offset..cut] == memory(k + 1)[offset..cut] ||
             memory(k)[cut..offset + 4] == memory(k + 1)[cut..offset + 4])
  {
    var k, cut := offset / 15, BlockEnd(offset);
    CrossingFieldBytes(memory, offset);
    MixedFieldIsWholeIff(ReadBack(memory), memory(k), memory(k + 1), offset, cut);
  }

  lemma MixedFieldIsWholeIff(state: seq<Byte>, first: seq<Byte>, second: seq<Byte>, offset: nat, cut: nat)
    requires offset <= cut <= offset + 4 && offset + 4 <= |state| && offset + 4 <= |first| && offset + 4 <= |second|
    requires FieldBytes(state, offset) == first[offset..cut] + second[cut..offset + 4]
    ensures Field(state, offset) == Field(first, offset) || Field(state, offset) == Field(second, offset) <==>
            first[offset..cut] == second[offset..cut] || first[cut..offset + 4] == second[cut..offset + 4]
  {
    FieldDeterminesBytes(state, first, offset);
    FieldDeterminesBytes(state, second, offset);
    MixedBytesAreWholeIff(state, first, second, offset, cut);
  }

  lemma MixedBytesAreWholeIff(state: seq<Byte>, first: seq<Byte>, second: seq<Byte>, offset: nat, cut: nat)
    requires offset <= cut <= offset + 4 && offset + 4 <= |state| && offset + 4 <= |first| && offset + 4 <= |second|
    requires FieldBytes(state, offset) == first[offset..cut] + second[cut..offset + 4]
    ensures || FieldBytes(state, offset) == FieldBytes(first, offset)
            || FieldBytes(state, offset) == FieldBytes(second, offset)
            <==> first[offset..cut] == second[offset..cut] || first[cut..offset + 4] == second[cut..offset + 4]
  {
    FieldParts(first, offset, cut);
    FieldParts(second, offset, cut);
    MixedPartsAreWholeIff(first[offset..cut], first[cut..offset + 4], second[offset..cut], second[cut..offset + 4]);
  }

  lemma FieldParts(memory: seq<Byte>, offset: nat, cut: nat)
    requires offset <= cut <= offset + 4 <= |memory|
    ensures FieldBytes(memory, offset) == memory[offset..cut] + memory[cut..offset + 4]
  {
  }

  lemma MixedPartsAreWholeIff(a: seq<Byte>, b: seq<Byte>, c: seq<Byte>, d: seq<Byte>)
    requires |a| == |c| && |b| == |d|
    ensures a + d == a + b || a + d == c + d <==> a == c || b == d
  {
    assert (a + d)[..|a|] == a && (c + d)[..|a|] == c;
    assert (a + d)[|a|..] == d && (a + b)[|a|..] == b;
  }

  /** Where the 32-bit fields of the structure stand. */
  const WORD_OFFSETS: seq<nat> :=
    [4, 10, TARGET_VELOCITY_OFFSET, 18, 22, 26, 30, CURRENT_POSITION_OFFSET, CURRENT_VELOCITY_OFFSET]

  /**
   Of the 32-bit fields of the structure only the target velocity crosses a block, after its first
   byte; so it is the only one that can be torn, and it is iff both its first byte and its others
   differ between the two requests.
   */
  lemma OnlyTargetVelocityCanBeTorn(memory: nat -> seq<Byte>, offset: nat)
    requires forall k: nat :: |memory(k)| == 256
    requires offset in WORD_OFFSETS
    ensures offset + 4 <= STATE_SIZE
    ensures var f := Field(ReadBack(memory), offset);
            (forall k: nat :: k <= 2 ==> f != Field(memory(k), offset)) ==>
            offset == TARGET_VELOCITY_OFFSET
    ensures var f := Field(ReadBack(memory), TARGET_VELOCITY_OFFSET);
            f != Field(memory(0), TARGET_VELOCITY_OFFSET) && f != Field(memory(1), TARGET_VELOCITY_OFFSET) <==>
            memory(0)[14] != memory(1)[14] && memory(0)[15..18] != memory(1)[15..18]
  {
    if offset != TARGET_VELOCITY_OFFSET {
      FieldWithinBlockIsWhole(memory, offset);
    }
    CrossingFieldIsWholeIff(memory, TARGET_VELOCITY_OFFSET);
    assert memory(0)[14..15] == [memory(0)[14]] && memory(1)[14..15] == [memory(1)[14]];
  }

  /** Such memories exist: 255 and then 256 are read as 511. */
  lemma TargetVelocityCanBeTorn(memory: nat -> seq<Byte>)
    requires forall k: nat :: |memory(k)| == 256
    requires memory(0)[14..18] == LittleEndian(255) && memory(1)[14..18] == LittleEndian(256)
    ensures Field(memory(0), TARGET_VELOCITY_OFFSET) == 255 && Field(memory(1), TARGET_VELOCITY_OFFSET) == 256
    ensures Field(ReadBack(memory), TARGET_VELOCITY_OFFSET) == 511
  {
    CrossingFieldBytes(memory, TARGET_VELOCITY_OFFSET);
    assert memory(0)[14..15] == memory(0)[14..18][..1] == [255];
    assert memory(1)[15..18] == memory(1)[14..18][1..] == [1, 0, 0];
    assert FieldBytes(ReadBack(memory), TARGET_VELOCITY_OFFSET) == [255, 1, 0, 0];
    DecodeInvertsEncode(255);
    DecodeInvertsEncode(256);
  }
}
