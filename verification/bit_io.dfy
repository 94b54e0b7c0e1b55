// The bit writer of meteor_bit_io.cc: bits are packed into bytes, most significant first,
// and an unfinished byte waits in cur, shifted left by one.
module BitIo {

  // ----- bits and bytes -----------------------------------------------------------------

  predicate ZeroOne(s: seq<bv8>) {
    forall i :: 0 <= i < |s| ==> s[i] == 0 || s[i] == 1
  }

  function AsBools(s: seq<bv8>): (r: seq<bool>)
    ensures |r| == |s|
  {
    seq(|s|, i requires 0 <= i < |s| => s[i] != 0)
  }

  function Reverse(s: seq<bool>): (r: seq<bool>)
    ensures |r| == |s| && forall i :: 0 <= i < |s| ==> r[i] == s[|s| - 1 - i]
  {
    seq(|s|, i requires 0 <= i < |s| => s[|s| - 1 - i])
  }

  // The bits of a byte, most significant first.
  function ByteBits(b: bv8): (r: seq<bool>)
    ensures |r| == 8
  {
    [b & 0x80 != 0, b & 0x40 != 0, b & 0x20 != 0, b & 0x10 != 0, b & 0x08 != 0, b & 0x04 != 0, b & 0x02 != 0, b & 0x01 != 0]
  }

  // The first bit counts most.
  lemma ByteSpelled(b: bv8)
    ensures var x := ByteBits(b);
      b as int == (if x[0] then 128 else 0) + (if x[1] then 64 else 0) + (if x[2] then 32 else 0) + (if x[3] then 16 else 0) +
                  (if x[4] then 8 else 0) + (if x[5] then 4 else 0) + (if x[6] then 2 else 0) + (if x[7] then 1 else 0)
  {}

  function Bits(s: seq<bv8>): (r: seq<bool>)
    ensures |r| == 8 * |s|
  {
    if |s| == 0 then [] else Bits(s[..|s| - 1]) + ByteBits(s[|s| - 1])
  }

  lemma BitsMore(s: seq<bv8>, b: bv8)
    ensures Bits(s + [b]) == Bits(s) + ByteBits(b)
  {
    assert (s + [b])[..|s|] == s;
  }

  function ShiftIn(b: bv16, x: bool): bv16 {
    (b << 1) | (if x then 1 else 0)
  }

  // The number that the bits spell.
  function Pack(bits: seq<bool>): bv16 {
    if |bits| == 0 then 0 else ShiftIn(Pack(bits[..|bits| - 1]), bits[|bits| - 1])
  }

  function ShiftedOnce(b: bv16): bv16 {
    b << 1
  }

  lemma PackMore(bits: seq<bool>, x: bool)
    ensures Pack(bits + [x]) == ShiftIn(Pack(bits), x)
  {
    assert (bits + [x])[..|bits|] == bits;
  }

  function Pack8(x0: bool, x1: bool, x2: bool, x3: bool, x4: bool, x5: bool, x6: bool, x7: bool): bv16 {
    ShiftIn(ShiftIn(ShiftIn(ShiftIn(ShiftIn(ShiftIn(ShiftIn(ShiftIn(0, x0), x1), x2), x3), x4), x5), x6), x7)
  }

  lemma PackTake(bits: seq<bool>, k: nat)
    requires 1 <= k <= |bits|
    ensures Pack(bits[..k]) == ShiftIn(Pack(bits[..k - 1]), bits[k - 1])
  {
    hide ShiftIn;
    assert bits[..k][..k - 1] == bits[..k - 1];
  }

  lemma PackOfEight(bits: seq<bool>)
    requires |bits| == 8
    ensures Pack(bits) == Pack8(bits[0], bits[1], bits[2], bits[3], bits[4], bits[5], bits[6], bits[7])
  {
    hide ShiftIn, Pack;
    PackNothing();
    assert bits[..0] == [] && bits[..8] == bits;
    PackTake(bits, 1); PackTake(bits, 2); PackTake(bits, 3); PackTake(bits, 4);
    PackTake(bits, 5); PackTake(bits, 6); PackTake(bits, 7); PackTake(bits, 8);
  }

  lemma PackNothing()
    ensures Pack([]) == 0
  {}

  lemma Pack8Bits(x0: bool, x1: bool, x2: bool, x3: bool, x4: bool, x5: bool, x6: bool, x7: bool)
    ensures ByteBits(LowByte(Pack8(x0, x1, x2, x3, x4, x5, x6, x7))) == [x0, x1, x2, x3, x4, x5, x6, x7]
  {
    var p := Pack8(x0, x1, x2, x3, x4, x5, x6, x7);
    LowByteMasks(p);
    PackedMasks(x0, x1, x2, x3, x4, x5, x6, x7);
  }

  lemma LowByteMasks(p: bv16)
    ensures var b := LowByte(p);
      (b & 0x80 != 0 <==> p & 0x80 != 0) && (b & 0x40 != 0 <==> p & 0x40 != 0) && (b & 0x20 != 0 <==> p & 0x20 != 0) &&
      (b & 0x10 != 0 <==> p & 0x10 != 0) && (b & 0x08 != 0 <==> p & 0x08 != 0) && (b & 0x04 != 0 <==> p & 0x04 != 0) &&
      (b & 0x02 != 0 <==> p & 0x02 != 0) && (b & 0x01 != 0 <==> p & 0x01 != 0)
  {}

  lemma PackedMasks(x0: bool, x1: bool, x2: bool, x3: bool, x4: bool, x5: bool, x6: bool, x7: bool)
    ensures var p := Pack8(x0, x1, x2, x3, x4, x5, x6, x7);
      (p & 0x80 != 0 <==> x0) && (p & 0x40 != 0 <==> x1) && (p & 0x20 != 0 <==> x2) && (p & 0x10 != 0 <==> x3) &&
      (p & 0x08 != 0 <==> x4) && (p & 0x04 != 0 <==> x5) && (p & 0x02 != 0 <==> x6) && (p & 0x01 != 0 <==> x7)
  {}

  // A 16-bit value stored into a byte.
  function LowByte(b: bv16): bv8 {
    (b & 0xFF) as bv8
  }

  // ----- building one byte --------------------------------------------------------------

  lemma EightPacked(bits: seq<bool>)
    requires |bits| == 8
    ensures ByteBits(LowByte(Pack(bits))) == bits
  {
    hide ByteBits, LowByte, Pack, Pack8;
    PackOfEight(bits);
    Pack8Bits(bits[0], bits[1], bits[2], bits[3], bits[4], bits[5], bits[6], bits[7]);
  }

  // k bits of the list, from position p downwards.
  function Taken(s: seq<bv8>, p: int, k: nat): (r: seq<bool>)
    requires k <= p + 1 <= |s|
    ensures |r| == k && forall i :: 0 <= i < k ==> r[i] == (s[p - i] != 0)
  {
    seq(k, i requires 0 <= i < k => s[p - i] != 0)
  }

  lemma TakenMore(s: seq<bv8>, p: int, k: nat, j: nat)
    requires k + j <= p + 1 <= |s|
    ensures Taken(s, p, k) + Taken(s, p - k, j) == Taken(s, p, k + j)
  {}

  lemma TakenAll(s: seq<bv8>)
    ensures Taken(s, |s| - 1, |s|) == Reverse(AsBools(s))
  {}

  function Widen(x: bv8): bv16 {
    x as bv16
  }

  lemma WidenBit()
    ensures Widen(0) == 0 && Widen(1) == 1
  {}

  function OrThenShift(b: bv16, x: bv16): bv16 {
    (b | x) << 1
  }

  lemma OrThenShiftBit(b: bv16)
    ensures OrThenShift(ShiftedOnce(b), 0) == ShiftedOnce(ShiftIn(b, false))
    ensures OrThenShift(ShiftedOnce(b), 1) == ShiftedOnce(ShiftIn(b, true))
  {}

  lemma OrThenShiftIsShiftIn(b: bv16, x: bv8)
    requires x == 0 || x == 1
    ensures OrThenShift(ShiftedOnce(b), Widen(x)) == ShiftedOnce(ShiftIn(b, x != 0))
  {
    hide OrThenShift, ShiftedOnce, ShiftIn, Widen;
    WidenBit();
    OrThenShiftBit(b);
  }

  function Limit(n: nat): bv16
    requires n < 9
  {
    if n == 0 then 1 else if n == 1 then 2 else if n == 2 then 4 else if n == 3 then 8 else if n == 4 then 16
    else if n == 5 then 32 else if n == 6 then 64 else if n == 7 then 128 else 256
  }

  lemma {:induction false} PackSmall(bits: seq<bool>)
    requires |bits| <= 8
    ensures Pack(bits) < Limit(|bits|)
    decreases |bits|
  {
    if |bits| > 0 {
      PackSmall(bits[..|bits| - 1]);
    }
  }

  lemma ShiftedFits(b: bv16)
    requires b < 128
    ensures LowByte(ShiftedOnce(b)) as bv16 == ShiftedOnce(b)
  {}

  lemma PendingFits(bits: seq<bool>)
    requires |bits| <= 7
    ensures LowByte(ShiftedOnce(Pack(bits))) as bv16 == ShiftedOnce(Pack(bits))
  {
    hide Pack, LowByte, ShiftedOnce;
    PackSmall(bits);
    ShiftedFits(Pack(bits));
  }

  lemma UndoShift(b: bv16)
    requires b < 256
    ensures ShiftedOnce(b) >> 1 == b
  {}

  // The two loops that shift bits in, newest position first.
  method ShiftBits(list: array<bv8>, p: int, k: nat, b0: bv16, ghost q: seq<bool>) returns (b: bv16)
    requires k <= p + 1 <= list.Length && ZeroOne(list[..p + 1])
    requires b0 == ShiftedOnce(Pack(q))
    ensures b == ShiftedOnce(Pack(q + Taken(list[..], p, k)))
  {
    hide Pack, ShiftedOnce, ShiftIn, OrThenShift, Widen;
    b := b0;
    assert q + Taken(list[..], p, 0) == q;
    for i := 0 to k
      invariant b == ShiftedOnce(Pack(q + Taken(list[..], p, i)))
    {
      ghost var r := q + Taken(list[..], p, i);
      var x := list[p - i];
      assert x == list[..p + 1][p - i];
      OrThenShiftIsShiftIn(Pack(r), x);
      PackMore(r, x != 0);
      assert r + [x != 0] == q + Taken(list[..], p, i + 1);
      b := OrThenShift(b, Widen(x));
    }
  }

  function EightBits(x0: bv8, x1: bv8, x2: bv8, x3: bv8, x4: bv8, x5: bv8, x6: bv8, x7: bv8): bv8 {
    (x0 << 7) | (x1 << 6) | (x2 << 5) | (x3 << 4) | (x4 << 3) | (x5 << 2) | (x6 << 1) | x7
  }

  lemma EightBitsSpell(x0: bv8, x1: bv8, x2: bv8, x3: bv8, x4: bv8, x5: bv8, x6: bv8, x7: bv8)
    requires x0 < 2 && x1 < 2 && x2 < 2 && x3 < 2 && x4 < 2 && x5 < 2 && x6 < 2 && x7 < 2
    ensures ByteBits(EightBits(x0, x1, x2, x3, x4, x5, x6, x7)) == [x0 != 0, x1 != 0, x2 != 0, x3 != 0, x4 != 0, x5 != 0, x6 != 0, x7 != 0]
  {}

  lemma TakenByte(s: seq<bv8>, p: int)
    requires 8 <= p + 1 <= |s| && ZeroOne(s[..p + 1])
    ensures ByteBits(EightBits(s[p], s[p - 1], s[p - 2], s[p - 3], s[p - 4], s[p - 5], s[p - 6], s[p - 7])) == Taken(s, p, 8)
  {
    hide ByteBits, EightBits;
    forall i | 0 <= i <= p
      ensures s[i] < 2
    {
      assert s[..p + 1][i] == s[i];
      BelowTwo(s[i]);
    }
    hide ZeroOne;
    EightBitsSpell(s[p], s[p - 1], s[p - 2], s[p - 3], s[p - 4], s[p - 5], s[p - 6], s[p - 7]);
  }

  lemma BelowTwo(x: bv8)
    requires x == 0 || x == 1
    ensures x < 2
  {}

  lemma ZeroOnePrefix(s: seq<bv8>, k: nat, m: nat)
    requires k <= m <= |s| && ZeroOne(s[..m])
    ensures ZeroOne(s[..k])
  {
    forall i | 0 <= i < k ensures s[..k][i] == 0 || s[..k][i] == 1 {
      assert s[..k][i] == s[..m][i];
    }
  }

  // The loop that writes whole bytes.
  method WholeBytes(bytes: array<bv8>, byteIndex: nat, list: array<bv8>, p: int, n: nat)
    requires 8 * n <= p + 1 <= list.Length && ZeroOne(list[..p + 1]) && list != bytes
    requires byteIndex + n <= bytes.Length
    modifies bytes
    ensures bytes[..byteIndex] == old(bytes[..byteIndex])
    ensures Bits(bytes[..byteIndex + n]) == Bits(old(bytes[..byteIndex])) + Taken(list[..], p, 8 * n)
  {
    hide Bits, ByteBits, EightBits, Taken;
    ghost var s := list[..];
    ghost var before := Bits(bytes[..byteIndex]);
    assert s[..p + 1] == list[..p + 1];
    assert before + Taken(s, p, 0) == before;
    for i := 0 to n
      invariant bytes[..byteIndex] == old(bytes[..byteIndex])
      invariant Bits(bytes[..byteIndex + i]) == before + Taken(s, p, 8 * i)
    {
      var t := p - 8 * i;
      ghost var done := bytes[..byteIndex + i];
      ZeroOnePrefix(s, t + 1, p + 1);
      TakenByte(s, t);
      var x := EightBits(list[t], list[t - 1], list[t - 2], list[t - 3], list[t - 4], list[t - 5], list[t - 6], list[t - 7]);
      bytes[byteIndex + i] := x;
      assert bytes[..byteIndex + (i + 1)] == done + [x];
      BitsMore(done, x);
      TakenMore(s, p, 8 * i, 8);
      assert before + Taken(s, p, 8 * i) + Taken(s, t, 8) == before + (Taken(s, p, 8 * i) + Taken(s, t, 8));
    }
  }

  // ----- the writer ---------------------------------------------------------------------

  class Writer {
    const bytes: array<bv8>
    var pos: nat
    var cur: bv8
    var curLen: nat
    ghost var pending: seq<bool>

    ghost predicate Valid()
      reads this, bytes
    {
      pos <= bytes.Length && curLen < 8 && |pending| == curLen && cur as bv16 == ShiftedOnce(Pack(pending))
    }

    // All the bits written so far, the unfinished byte included.
    ghost function Stream(): seq<bool>
      requires Valid()
      reads this, bytes
    {
      Bits(bytes[..pos]) + pending
    }

    lemma StreamLength()
      requires Valid()
      ensures |Stream()| == 8 * pos + curLen
    {}

    constructor (buffer: array<bv8>)
      ensures Valid() && bytes == buffer && pos == 0 && curLen == 0 && Stream() == []
    {
      bytes := buffer;
      pos, cur, curLen := 0, 0, 0;
      pending := [];
    }

    // Stores eight bits as the next byte.
    method Flush(byteIndex: nat, b: bv16, ghost eight: seq<bool>)
      requires byteIndex < bytes.Length && |eight| == 8 && b == ShiftedOnce(Pack(eight))
      modifies bytes
      ensures bytes[..byteIndex] == old(bytes[..byteIndex])
      ensures Bits(bytes[..byteIndex + 1]) == Bits(old(bytes[..byteIndex])) + eight
    {
      hide Bits, ByteBits, Pack, ShiftedOnce, LowByte;
      ghost var done := bytes[..byteIndex];
      PackSmall(eight);
      UndoShift(Pack(eight));
      EightPacked(eight);
      bytes[byteIndex] := LowByte(b >> 1);
      assert bytes[..byteIndex + 1] == done + [LowByte(b >> 1)];
      BitsMore(done, LowByte(b >> 1));
    }

    // Completes the pending byte if the list has enough bits for it.
    method Close(list: array<bv8>, len: nat) returns (used: nat, byteIndex: nat)
      requires Valid() && 0 < curLen && len <= list.Length && ZeroOne(list[..len]) && list != bytes
      requires pos + (curLen + len) / 8 <= bytes.Length
      modifies this`cur, this`curLen, bytes
      ensures used == if 8 - old(curLen) >= len then len else 8 - old(curLen)
      ensures byteIndex == if old(curLen) + len >= 8 then pos + 1 else pos
      ensures bytes[..pos] == old(bytes[..pos])
      ensures old(curLen) + len >= 8 ==> Bits(bytes[..byteIndex]) == old(Stream()) + Taken(list[..], len - 1, used)
    {
      hide Bits, ByteBits, Pack, ShiftedOnce, LowByte, Taken;
      used := 8 - curLen;
      if used >= len {
        used := len;
      }
      byteIndex := pos;
      ghost var taken := Taken(list[..], len - 1, used);
      ghost var done := Bits(bytes[..pos]);
      var b := ShiftBits(list, len - 1, used, cur as bv16, pending);
      if curLen + used == 8 {
        Flush(byteIndex, b, pending + taken);
        byteIndex := byteIndex + 1;
        assert done + (pending + taken) == done + pending + taken;
      } else {
        cur := LowByte(b);
        curLen := curLen + used;
      }
    }

    // Writes what is left of the list from byteIndex on.
    method Rest(list: array<bv8>, rest: nat, byteIndex: nat)
      requires rest <= list.Length && ZeroOne(list[..rest]) && list != bytes
      requires byteIndex + rest / 8 <= bytes.Length
      modifies this, bytes
      ensures Valid() && pos == byteIndex + rest / 8
      ensures bytes[..byteIndex] == old(bytes[..byteIndex])
      ensures Stream() == Bits(old(bytes[..byteIndex])) + Taken(list[..], rest - 1, rest)
    {
      hide Bits, Pack, ShiftedOnce, LowByte, Taken;
      ghost var s, start := list[..], Bits(bytes[..byteIndex]);
      var fullBytes := rest / 8;
      var tail := rest - 8 * fullBytes;
      assert s[..rest] == list[..rest];
      WholeBytes(bytes, byteIndex, list, rest - 1, fullBytes);
      ZeroOnePrefix(s, tail, rest);
      assert s[..tail] == list[..tail];
      NothingPending();
      var b := ShiftBits(list, tail - 1, tail, 0, []);
      pending := Taken(s, tail - 1, tail);
      assert [] + pending == pending;
      PendingFits(pending);
      cur := LowByte(b);
      pos := byteIndex + fullBytes;
      curLen := tail;
      TakenMore(s, rest - 1, 8 * fullBytes, tail);
      assert start + Taken(s, rest - 1, 8 * fullBytes) + pending == start + (Taken(s, rest - 1, 8 * fullBytes) + pending);
    }

    // Appends the list, last element first. A list too short to complete a pending byte
    // overwrites that byte: the stream then falls back to its whole bytes.
    method WriteBitlistReversed(list: array<bv8>, len: nat)
      requires Valid() && len <= list.Length && ZeroOne(list[..len]) && list != bytes
      requires pos + (curLen + len) / 8 <= bytes.Length
      modifies this, bytes
      ensures Valid()
      ensures pos == old(pos) + (if old(curLen) == 0 || old(curLen) + len >= 8 then (old(curLen) + len) / 8 else 0)
      ensures bytes[..old(pos)] == old(bytes[..pos])
      ensures Stream() == if old(curLen) == 0 || old(curLen) + len >= 8
        then old(Stream()) + Reverse(AsBools(list[..len]))
        else Bits(old(bytes[..pos]))
    {
      hide Bits, Pack, ShiftedOnce, Reverse, AsBools, Taken;
      var used, byteIndex := 0, pos;
      ghost var s, before := list[..], Stream();
      if curLen != 0 {
        used, byteIndex := Close(list, len);
      }
      ghost var start := bytes[..byteIndex];
      assert s[..len] == list[..len];
      ZeroOnePrefix(s, len - used, len);
      assert s[..len - used] == list[..len - used];
      Rest(list, len - used, byteIndex);
      assert bytes[..byteIndex] == start;
      Appended(before, start, s, len, used);
    }
  }

  // The two parts of the list are the whole of it.
  lemma Appended(before: seq<bool>, start: seq<bv8>, s: seq<bv8>, len: nat, used: nat)
    requires used <= len <= |s|
    ensures used == 0 ==> before + Taken(s, len - 1, len) == before + Reverse(AsBools(s[..len]))
    ensures before + Taken(s, len - 1, used) + Taken(s, len - used - 1, len - used) == before + Reverse(AsBools(s[..len]))
    ensures used == len ==> Bits(start) + Taken(s, len - used - 1, len - used) == Bits(start)
  {
    hide Bits;
    TakenMore(s, len - 1, used, len - used);
    TakenAll(s[..len]);
    TakenPrefix(s, len);
    var a, b := Taken(s, len - 1, used), Taken(s, len - used - 1, len - used);
    assert before + a + b == before + (a + b);
  }

  lemma NothingPending()
    ensures 0 == ShiftedOnce(Pack([]))
  {}

  lemma TakenPrefix(s: seq<bv8>, len: nat)
    requires len <= |s|
    ensures Taken(s[..len], len - 1, len) == Taken(s, len - 1, len)
  {}
}
