// Packets of the pseudo-random sequence: the counter that is put in front of each
// (add_incrementing_header_pdu.py), the packing of bits (utils.py), and the sink that recognises
// a packet by its number and keeps count (prbs_sink_pdu.py).
module PrbsPackets {
  import opened Huffman
  import opened Prbs
  import BitReader

  type Byte = b: int | 0 <= b < 256

  const UINT32 := 0x1_0000_0000

  // ----- the header ---------------------------------------------------------------------

  // A 32-bit number, lowest byte first.
  function Header(i: nat): (h: seq<Byte>)
    ensures |h| == 4
  {
    [i % 256, i / 256 % 256, i / 0x1_0000 % 256, i / 0x100_0000 % 256]
  }

  function ReadHeader(arr: seq<Byte>): (v: nat)
    requires |arr| >= 4
    ensures v < UINT32
  {
    arr[0] as int + 256 * (arr[1] as int) + 0x1_0000 * (arr[2] as int) + 0x100_0000 * (arr[3] as int)
  }

  lemma HeaderRoundTrip(i: nat, body: seq<Byte>)
    requires i < UINT32
    ensures ReadHeader(Header(i) + body) == i
  {
    var a := i / 256;
    var b := i / 0x1_0000;
    var c := i / 0x100_0000;
    assert i == i % 256 + 256 * a;
    assert a == a % 256 + 256 * b;
    assert b == b % 256 + 256 * c;
  }

  class HeaderAdder {
    var next: nat

    constructor ()
      ensures next == 0
    {
      next := 0;
    }

    // Puts the number of the message in front of it.
    method AddHeader(arr: seq<Byte>) returns (out: seq<Byte>)
      requires next < UINT32
      modifies this
      ensures out == Header(old(next)) + arr && next == old(next) + 1
      ensures out[0] as int + 256 * out[1] as int + 0x1_0000 * out[2] as int + 0x100_0000 * out[3] as int == old(next) && out[4..] == arr
    {
      HeaderRoundTrip(next, arr);
      out := Header(next) + arr;
      next := next + 1;
    }
  }

  // ----- packing bits -------------------------------------------------------------------

  // The whole bytes that the bits fill, most significant bit first.
  function Packed(bits: seq<bool>): (p: seq<Byte>)
    ensures |p| == |bits| / 8
  {
    seq(|bits| / 8, k requires 0 <= k < |bits| / 8 => ByteAt(bits, k))
  }

  function ByteAt(bits: seq<bool>, k: nat): Byte
    requires 8 * k + 8 <= |bits|
  {
    EightBound(bits[8 * k..8 * k + 8]);
    Value(bits[8 * k..8 * k + 8])
  }

  lemma EightBound(bits: seq<bool>)
    requires |bits| == 8
    ensures Value(bits) < 256
  {
    ValueBound(bits);
    assert Power2(8) == 256;
  }

  // The first of eight bits counts most.
  lemma PackedSpells(bits: seq<bool>, k: nat)
    requires 8 * k + 8 <= |bits|
    ensures Packed(bits)[k] as int == 128 * AsInt(bits[8 * k]) + 64 * AsInt(bits[8 * k + 1]) + 32 * AsInt(bits[8 * k + 2]) + 16 * AsInt(bits[8 * k + 3]) +
      8 * AsInt(bits[8 * k + 4]) + 4 * AsInt(bits[8 * k + 5]) + 2 * AsInt(bits[8 * k + 6]) + AsInt(bits[8 * k + 7])
  {
    hide Value;
    BitReader.ValueOfEight(bits[8 * k..8 * k + 8]);
  }

  // Bits left of position p of a byte.
  function Weight(p: nat): nat
    requires p < 8
  {
    if p == 0 then 128 else if p == 1 then 64 else if p == 2 then 32 else if p == 3 then 16
    else if p == 4 then 8 else if p == 5 then 4 else if p == 6 then 2 else 1
  }

  // What the first p bits of a byte add up to.
  function Partial(bits: seq<bool>): nat
    requires |bits| <= 8
  {
    if |bits| == 0 then 0 else Partial(bits[..|bits| - 1]) + (if bits[|bits| - 1] then Weight(|bits| - 1) else 0)
  }

  lemma {:induction false} PartialIsValue(bits: seq<bool>)
    requires |bits| <= 8
    ensures Partial(bits) == Value(bits) * (if |bits| == 0 then 256 else 2 * Weight(|bits| - 1) / 2)
    decreases |bits|
  {
    if |bits| > 0 {
      PartialIsValue(bits[..|bits| - 1]);
    }
  }

  method PackBits(arr: seq<bool>) returns (packed: array<Byte>)
    ensures packed[..] == Packed(arr) && fresh(packed)
  {
    hide Value, Partial;
    packed := new Byte[|arr| / 8](_ => 0);
    var idx, packedArrIdx, packedByte: nat := 0, 0, 0;
    NothingPacked();
    for i := 0 to |arr|
      invariant idx < 8 && i == 8 * packedArrIdx + idx
      invariant packedByte == Partial(arr[8 * packedArrIdx..i])
      invariant forall k :: 0 <= k < packedArrIdx && k < packed.Length ==> packed[k] == ByteAt(arr, k)
    {
      ghost var start := 8 * packedArrIdx;
      OneMoreBit(arr, start, i);
      packedByte := packedByte + if arr[i] then Weight(idx) else 0;
      if idx == 7 {
        WholeByte(arr[start..i + 1]);
        assert arr[start..start + 8] == arr[start..i + 1];
        packed[packedArrIdx] := packedByte;
        packedArrIdx := packedArrIdx + 1;
        packedByte := 0;
        idx := 0;
        assert arr[i + 1..i + 1] == [];
      } else {
        idx := idx + 1;
      }
    }
  }

  lemma NothingPacked()
    ensures Partial([]) == 0
  {}

  lemma OneMoreBit(arr: seq<bool>, start: nat, i: nat)
    requires start <= i < |arr| && i - start < 8
    ensures Partial(arr[start..i + 1]) == Partial(arr[start..i]) + if arr[i] then Weight(i - start) else 0
  {
    var b := arr[start..i + 1];
    assert b[..|b| - 1] == arr[start..i] && b[|b| - 1] == arr[i];
  }

  lemma WholeByte(bits: seq<bool>)
    requires |bits| == 8
    ensures Partial(bits) == Value(bits) < 256
  {
    PartialIsValue(bits);
    EightBound(bits);
  }

  // ----- the sink -----------------------------------------------------------------------

  // Packet number i: its number, and its share of the stream.
  function Packet(period: seq<bool>, bits: nat, i: nat): seq<Byte>
    requires |period| > 0
  {
    Header(i) + Packed(Slice(period, bits * i, bits))
  }

  function Sum(c: seq<nat>): nat {
    if |c| == 0 then 0 else Sum(c[..|c| - 1]) + c[|c| - 1]
  }

  function CountNonZero(c: seq<nat>): nat {
    if |c| == 0 then 0 else CountNonZero(c[..|c| - 1]) + if c[|c| - 1] > 0 then 1 else 0
  }

  // How often packets came again.
  function Duplicates(c: seq<nat>): nat {
    if |c| == 0 then 0 else Duplicates(c[..|c| - 1]) + if c[|c| - 1] > 1 then c[|c| - 1] - 1 else 0
  }

  lemma {:induction false} UniqueAndDuplicates(c: seq<nat>)
    ensures Sum(c) == CountNonZero(c) + Duplicates(c)
    decreases |c|
  {
    if |c| > 0 {
      UniqueAndDuplicates(c[..|c| - 1]);
    }
  }

  lemma {:induction false} SumMore(c: seq<nat>, d: seq<nat>, i: nat)
    requires i < |c| == |d| && d == c[i := c[i] + 1]
    ensures Sum(d) == Sum(c) + 1
    decreases |c|
  {
    var m := |c| - 1;
    if i < m {
      assert d[..m] == c[..m][i := c[i] + 1];
      SumMore(c[..m], d[..m], i);
    } else {
      assert d[..m] == c[..m];
    }
  }

  lemma {:induction false} SumOfZeros(c: seq<nat>)
    requires forall i :: 0 <= i < |c| ==> c[i] == 0
    ensures Sum(c) == 0
    decreases |c|
  {
    if |c| > 0 {
      SumOfZeros(c[..|c| - 1]);
    }
  }

  // What becomes of a packet: it is counted under its number, or as an error.
  datatype Verdict = WrongLength | Erroneous | Correct(index: nat)

  function Judge(period: seq<bool>, bits: nat, numPackets: nat, arr: seq<Byte>): Verdict
    requires |period| > 0
  {
    if |arr| != bits / 8 + 4 then WrongLength
    else if arr[4..] != Packed(Slice(period, bits * ReadHeader(arr), bits)) then Erroneous
    else if ReadHeader(arr) >= numPackets then Erroneous
    else Correct(ReadHeader(arr))
  }

  class Sink {
    const bits: nat
    const numPackets: nat
    const generator: Generator
    var wrongLength: nat
    var erroneous: nat
    var correct: nat
    const collected: array<nat>
    ghost var handled: nat

    // Every packet handled is counted once, and the correct ones once under their number.
    ghost predicate Valid()
      reads this, generator, collected
    {
      generator.Valid() && collected.Length == numPackets &&
      handled == wrongLength + erroneous + correct && correct == Sum(collected[..])
    }

    constructor (packetLenBits: nat, packets: nat, g: Generator)
      requires g.Valid()
      ensures Valid() && fresh(collected) && generator == g && bits == packetLenBits && numPackets == packets && handled == 0
    {
      bits, numPackets, generator := packetLenBits, packets, g;
      wrongLength, erroneous, correct, handled := 0, 0, 0, 0;
      var c := new nat[packets](_ => 0);
      collected := c;
      new;
      SumOfZeros(collected[..]);
    }

    // The number of a packet whose bits are as expected, or -1.
    method VerifyPacket(arr: seq<Byte>) returns (r: int)
      requires Valid() && |arr| == bits / 8 + 4
      ensures r == if arr[4..] == Packed(Slice(generator.Period(), bits * ReadHeader(arr), bits)) then ReadHeader(arr) else -1
    {
      hide Packed, Slice, Output, Sum;
      var packetIdx := ReadHeader(arr);
      var expected := generator.GenerateNBitsAfterX(bits, bits * packetIdx);
      var packedExpected := PackBits(expected);
      if packedExpected[..] != arr[4..] {
        return -1;
      }
      return packetIdx;
    }

    method CorrectedHandler(arr: seq<Byte>)
      requires Valid()
      modifies this, collected
      ensures Valid() && handled == old(handled) + 1
      ensures match Judge(generator.Period(), bits, numPackets, arr)
        case WrongLength => wrongLength == old(wrongLength) + 1 && erroneous == old(erroneous) && correct == old(correct) && collected[..] == old(collected[..])
        case Erroneous => wrongLength == old(wrongLength) && erroneous == old(erroneous) + 1 && correct == old(correct) && collected[..] == old(collected[..])
        case Correct(i) => (wrongLength == old(wrongLength) && erroneous == old(erroneous) && correct == old(correct) + 1 &&
          i < numPackets && collected[..] == old(collected[..])[i := old(collected[i]) + 1])
    {
      hide Packed, Slice, Output, Sum, ReadHeader;
      if |arr| != bits / 8 + 4 {
        wrongLength, handled := wrongLength + 1, handled + 1;
        return;
      }
      var packetIdx := VerifyPacket(arr);
      if packetIdx == -1 {
        erroneous, handled := erroneous + 1, handled + 1;
        return;
      }
      if packetIdx > numPackets - 1 {
        erroneous, handled := erroneous + 1, handled + 1;
        return;
      }
      correct, handled := correct + 1, handled + 1;
      ghost var before := collected[..];
      collected[packetIdx] := collected[packetIdx] + 1;
      SumMore(before, collected[..], packetIdx);
    }

    // The statistics at the end.
    method Evaluate() returns (unique: nat, duplicates: nat)
      requires Valid()
      ensures unique == CountNonZero(collected[..]) && duplicates == Duplicates(collected[..]) && correct == unique + duplicates
    {
      unique, duplicates := 0, 0;
      assert collected[..0] == [];
      for i := 0 to collected.Length
        invariant unique == CountNonZero(collected[..i]) && duplicates == Duplicates(collected[..i])
      {
        assert collected[..i + 1][..i] == collected[..i];
        if collected[i] > 0 {
          unique := unique + 1;
        }
        if collected[i] > 1 {
          duplicates := duplicates + collected[i] - 1;
        }
      }
      assert collected[..collected.Length] == collected[..];
      UniqueAndDuplicates(collected[..]);
    }
  }

  // A packet that was sent as number i is accepted as number i, whatever came before it.
  lemma SentIsAccepted(period: seq<bool>, bits: nat, numPackets: nat, i: nat)
    requires |period| > 0 && i < numPackets && i < UINT32
    ensures Judge(period, bits, numPackets, Packet(period, bits, i)) == Correct(i)
  {
    hide Slice, Packed, Header, ReadHeader;
    var body := Packed(Slice(period, bits * i, bits));
    HeaderRoundTrip(i, body);
    assert (Header(i) + body)[4..] == body;
  }

  // Nothing but a packet that was sent is accepted.
  lemma AcceptedWasSent(period: seq<bool>, bits: nat, numPackets: nat, arr: seq<Byte>, i: nat)
    requires |period| > 0 && Judge(period, bits, numPackets, arr) == Correct(i)
    ensures arr == Packet(period, bits, i)
  {
    hide Slice, Packed;
    HeaderOfRead(arr);
    assert arr == arr[..4] + arr[4..];
  }

  lemma HeaderOfRead(arr: seq<Byte>)
    requires |arr| >= 4
    ensures Header(ReadHeader(arr)) == arr[..4]
  {
    var a, b, c, d: nat := arr[0], arr[1], arr[2], arr[3];
    var v := ReadHeader(arr);
    Digit1(a, b + 256 * (c + 256 * d));
    Digit2(a + 256 * b, c + 256 * d);
    Digit3(a + 256 * b + 0x1_0000 * c, d);
    Digit1(b, c + 256 * d);
    Digit1(c, d);
    Digit1(d, 0);
  }

  lemma Digit1(low: nat, high: nat)
    requires low < 256
    ensures (low + 256 * high) / 256 == high && (low + 256 * high) % 256 == low
  {}

  lemma Digit2(low: nat, high: nat)
    requires low < 0x1_0000
    ensures (low + 0x1_0000 * high) / 0x1_0000 == high
  {}

  lemma Digit3(low: nat, high: nat)
    requires low < 0x100_0000
    ensures (low + 0x100_0000 * high) / 0x100_0000 == high
  {}
}
