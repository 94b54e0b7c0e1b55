// The bit reader of meteor_bit_io.cc: numbers are read from a byte buffer most significant bit
// first, with or without moving on.
module BitReader {
  import BitIo
  import opened Huffman

  lemma {:induction false} BitAt(bytes: seq<bv8>, p: nat)
    requires p < 8 * |bytes|
    ensures BitIo.Bits(bytes)[p] == BitIo.ByteBits(bytes[p / 8])[p % 8]
    decreases |bytes|
  {
    hide BitIo.ByteBits;
    var front := bytes[..|bytes| - 1];
    if p < 8 * |front| {
      BitAt(front, p);
    } else {
      assert p / 8 == |front|;
    }
  }

  // The eight bits of a byte spell the byte.
  lemma ByteIsValue(bytes: seq<bv8>, k: nat)
    requires k < |bytes|
    ensures Value(BitIo.Bits(bytes)[8 * k..8 * k + 8]) == bytes[k] as int
  {
    hide BitIo.ByteBits, BitIo.Bits, Value;
    var x, s := BitIo.ByteBits(bytes[k]), BitIo.Bits(bytes)[8 * k..8 * k + 8];
    forall i | 0 <= i < 8
      ensures s[i] == x[i]
    {
      BitAt(bytes, 8 * k + i);
    }
    assert s == x;
    ValueOfEight(x);
    BitIo.ByteSpelled(bytes[k]);
  }

  lemma ValueOfEight(x: seq<bool>)
    requires |x| == 8
    ensures Value(x) == 128 * AsInt(x[0]) + 64 * AsInt(x[1]) + 32 * AsInt(x[2]) + 16 * AsInt(x[3]) + 8 * AsInt(x[4]) + 4 * AsInt(x[5]) + 2 * AsInt(x[6]) + AsInt(x[7])
  {
    hide Value;
    NoValue();
    assert x[..0] == [] && x[..8] == x;
    forall k | 0 <= k < 8
      ensures Value(x[..k + 1]) == 2 * Value(x[..k]) + AsInt(x[k])
    {
      assert x[..k + 1] == x[..k] + [x[k]];
      ValueMore(x[..k], x[k]);
    }
    assert Value(x[..1]) == AsInt(x[0]) && Value(x[..2]) == 2 * Value(x[..1]) + AsInt(x[1]) && Value(x[..3]) == 2 * Value(x[..2]) + AsInt(x[2]);
    assert Value(x[..4]) == 2 * Value(x[..3]) + AsInt(x[3]) && Value(x[..5]) == 2 * Value(x[..4]) + AsInt(x[4]);
    assert Value(x[..6]) == 2 * Value(x[..5]) + AsInt(x[5]) && Value(x[..7]) == 2 * Value(x[..6]) + AsInt(x[6]);
    assert Value(x[..8]) == 2 * Value(x[..7]) + AsInt(x[7]);
  }

  lemma ValueMore(bits: seq<bool>, b: bool)
    ensures Value(bits + [b]) == 2 * Value(bits) + AsInt(b)
  {
    assert (bits + [b])[..|bits|] == bits;
  }

  class Reader {
    const bytes: seq<bv8>
    var pos: nat

    ghost function Stream(): seq<bool> {
      BitIo.Bits(bytes)
    }

    constructor (buffer: seq<bv8>)
      ensures bytes == buffer && pos == 0
    {
      bytes, pos := buffer, 0;
    }

    // The number that the next n bits spell.
    method PeekNBits(n: nat) returns (result: nat)
      requires n <= 32 && pos + n <= 8 * |bytes|
      ensures pos + n <= |Stream()| && result == Value(Stream()[pos..pos + n])
    {
      hide BitIo.Bits, BitIo.ByteBits, Value;
      result := 0;
      ghost var s := Stream();
      NoValue();
      assert s[pos..pos] == [];
      for i := 0 to n
        invariant result == Value(s[pos..pos + i])
      {
        var p := pos + i;
        var bit := BitIo.ByteBits(bytes[p / 8])[p % 8];
        BitAt(bytes, p);
        ValueMore(s[pos..pos + i], bit);
        assert s[pos..pos + i + 1] == s[pos..pos + i] + [bit];
        result := 2 * result + AsInt(bit);
      }
    }

    method AdvanceNBits(n: nat)
      modifies this
      ensures pos == old(pos) + n
    {
      pos := pos + n;
    }

    method FetchNBits(n: nat) returns (result: nat)
      requires n <= 32 && pos + n <= 8 * |bytes|
      modifies this
      ensures pos == old(pos) + n <= |Stream()| && result == Value(Stream()[old(pos)..pos])
    {
      result := PeekNBits(n);
      AdvanceNBits(n);
    }
  }

  lemma NoValue()
    ensures Value([]) == 0
  {}
}
