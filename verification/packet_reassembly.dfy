// Reassembly of space packets from transfer frames (meteor_packet.cc): packets cross frame
// boundaries, frames may be lost, and a header pointer tells where a packet starts.
module PacketReassembly {

  type Byte = b: int | 0 <= b < 256

  const PACKET_FULL_MARK := 2047
  const BUFFER_SIZE := 2048
  const HEADER_SIZE := 10

  // ----- fields -------------------------------------------------------------------------

  function Two(a: Byte, b: Byte): nat {
    a as int * 256 + b as int
  }

  function Version(frame: seq<Byte>): nat
    requires |frame| >= HEADER_SIZE
  {
    Two(frame[0], frame[1]) / 0x4000
  }

  function FrameId(frame: seq<Byte>): nat
    requires |frame| >= HEADER_SIZE
  {
    Two(frame[0], frame[1]) % 64
  }

  function FrameCount(frame: seq<Byte>): nat
    requires |frame| >= HEADER_SIZE
  {
    frame[2] as int * 0x1_0000 + Two(frame[3], frame[4])
  }

  function HeaderOffset(frame: seq<Byte>): nat
    requires |frame| >= HEADER_SIZE
  {
    Two(frame[8], frame[9]) % 0x800
  }

  function Data(frame: seq<Byte>): seq<Byte>
    requires |frame| >= HEADER_SIZE
  {
    frame[HEADER_SIZE..]
  }

  // The length of the packet that starts here, once its length field has arrived.
  function PacketLength(data: seq<Byte>): nat
    requires |data| >= 6
  {
    Two(data[4], data[5]) + 7
  }

  predicate Complete(data: seq<Byte>) {
    |data| >= 6 && PacketLength(data) <= |data|
  }

  // ----- what one frame does ------------------------------------------------------------

  datatype Option<T> = None | Some(value: T)

  // The receiver: the last frame counted, and the start of a packet that is not complete yet.
  datatype State = State(lastFrame: int, pending: Option<seq<Byte>>)

  const INITIAL := State(0, None)

  datatype Outcome = Outcome(state: State, packets: seq<seq<Byte>>)

  // The packets that are complete in data, and what is left over.
  function Scan(data: seq<Byte>): (r: (seq<seq<Byte>>, Option<seq<Byte>>))
    decreases |data|
  {
    if |data| == 0 then ([], None)
    else if !Complete(data) then ([], Some(data))
    else
      var (packets, rest) := Scan(data[PacketLength(data)..]);
      ([data[..PacketLength(data)]] + packets, rest)
  }

  // The part of a frame from its first header on.
  function FromHeader(data: seq<Byte>, offset: nat): seq<Byte> {
    if offset < |data| then data[offset..] else []
  }

  function Step(s: State, frame: seq<Byte>): Outcome
    requires |frame| >= HEADER_SIZE
  {
    var count, offset, data := FrameCount(frame), HeaderOffset(frame), Data(frame);
    if Version(frame) == 0 || FrameId(frame) == 0 then Outcome(s, [])
    else if count != s.lastFrame + 1 then
      if offset == PACKET_FULL_MARK then Outcome(s, []) else
        var (packets, rest) := Scan(FromHeader(data, offset));
        Outcome(State(count, rest), packets)
    else if s.pending.None? then
      var (packets, rest) := Scan(FromHeader(data, offset));
      Outcome(State(count, rest), packets)
    else if offset == PACKET_FULL_MARK then
      Outcome(State(count, Some(s.pending.value + data)), [])
    else
      var whole := s.pending.value + data[..if offset <= |data| then offset else |data|];
      var (packets, rest) := Scan(FromHeader(data, offset));
      if Complete(whole) then Outcome(State(count, rest), [whole[..PacketLength(whole)]] + packets)
      else Outcome(State(count, if |data| <= offset then s.pending else rest), packets)
  }

  // What the copies into the packet buffer need. The source does not check it.
  predicate Fits(s: State, frame: seq<Byte>)
    requires |frame| >= HEADER_SIZE
  {
    var offset, data := HeaderOffset(frame), Data(frame);
    |data| <= BUFFER_SIZE &&
    (FrameCount(frame) == s.lastFrame + 1 && s.pending.Some? ==>
      if offset == PACKET_FULL_MARK then |s.pending.value| + |data| <= BUFFER_SIZE
      else offset <= |data| && |s.pending.value| + offset <= BUFFER_SIZE)
  }

  // One round of the loop.
  lemma ScanOne(data: seq<Byte>, off: nat)
    requires off < |data|
    ensures var d := data[off..];
      if Complete(d) then 0 < PacketLength(d) <= |d| && Scan(d) == ([d[..PacketLength(d)]] + Scan(data[off + PacketLength(d)..]).0, Scan(data[off + PacketLength(d)..]).1)
      else Scan(d) == ([], Some(d))
  {
    var d := data[off..];
    if Complete(d) {
      assert d[PacketLength(d)..] == data[off + PacketLength(d)..];
    }
  }

  lemma ScanNothing(data: seq<Byte>)
    ensures Scan(data[|data|..]) == ([], None)
  {}

  class Packeter {
    var lastFrame: int
    var partialPacket: bool
    const packetBuf: array<Byte>
    var packetOff: nat
    // The packets handed on for interpretation, in order.
    ghost var delivered: seq<seq<Byte>>

    ghost predicate Valid()
      reads this
    {
      packetBuf.Length == BUFFER_SIZE && packetOff <= BUFFER_SIZE
    }

    ghost function Abstract(): State
      requires Valid()
      reads this, packetBuf
    {
      State(lastFrame, if partialPacket then Some(packetBuf[..packetOff]) else None)
    }

    constructor ()
      ensures Valid() && Abstract() == INITIAL && delivered == [] && fresh(packetBuf)
    {
      lastFrame, partialPacket, packetOff := 0, false, 0;
      packetBuf := new Byte[BUFFER_SIZE](_ => 0);
      delivered := [];
    }

    // Hands on the packet at the start of data if it is complete.
    method ParsePartial(data: seq<Byte>) returns (n: nat)
      requires Valid()
      modifies this`partialPacket, this`delivered
      ensures Valid() && partialPacket == !Complete(data)
      ensures n == if Complete(data) then PacketLength(data) else 0
      ensures delivered == if Complete(data) then old(delivered) + [data[..PacketLength(data)]] else old(delivered)
    {
      if |data| < 6 {
        partialPacket := true;
        return 0;
      }
      var lenPck := Two(data[4], data[5]);
      if lenPck >= |data| - 6 {
        partialPacket := true;
        return 0;
      }
      delivered := delivered + [data[..lenPck + 7]];
      partialPacket := false;
      n := lenPck + 6 + 1;
    }

    // Copies data into the buffer from position at on.
    method Copy(data: seq<Byte>, at: nat)
      requires Valid() && at + |data| <= BUFFER_SIZE
      modifies packetBuf
      ensures packetBuf[..at + |data|] == old(packetBuf[..at]) + data
    {
      for i := 0 to |data|
        invariant packetBuf[..at] == old(packetBuf[..at])
        invariant packetBuf[at..at + i] == data[..i]
      {
        packetBuf[at + i] := data[i];
        assert packetBuf[at..at + i + 1] == packetBuf[at..at + i] + [data[i]];
      }
      assert packetBuf[..at + |data|] == packetBuf[..at] + packetBuf[at..at + |data|];
    }

    // Saves the start of a packet that is not complete yet.
    method SavePartial(data: seq<Byte>)
      requires Valid() && |data| <= BUFFER_SIZE && partialPacket
      modifies this`packetOff, packetBuf
      ensures Valid() && Abstract() == State(lastFrame, Some(data))
    {
      packetOff := |data|;
      Copy(data, 0);
      assert packetBuf[..packetOff] == data;
    }

    // The loop over the packets that start in this frame.
    method ParsePackets(data: seq<Byte>, offset: nat)
      requires Valid() && |data| <= BUFFER_SIZE && offset < |data|
      modifies this`partialPacket, this`packetOff, this`delivered, packetBuf
      ensures Valid()
      ensures delivered == old(delivered) + Scan(data[offset..]).0 && Abstract() == State(lastFrame, Scan(data[offset..]).1)
    {
      hide Complete, PacketLength, Scan;
      ghost var before, whole := delivered, Scan(data[offset..]);
      var off := offset;
      var dataLen := |data| - offset;
      while dataLen > 0
        invariant Valid() && dataLen == |data| - off && offset <= off <= |data|
        invariant offset < off ==> !partialPacket
        invariant delivered + Scan(data[off..]).0 == before + whole.0 && Scan(data[off..]).1 == whole.1
        decreases dataLen
      {
        ScanOne(data, off);
        ghost var earlier := delivered;
        var n := ParsePartial(data[off..]);
        if partialPacket {
          SavePartial(data[off..]);
          assert delivered + [] == delivered;
          return;
        } else {
          ghost var p, later := data[off..][..n], Scan(data[off + n..]).0;
          assert earlier + [p] + later == earlier + ([p] + later);
          off := off + n;
          dataLen := dataLen - n;
        }
      }
      ScanNothing(data);
      assert delivered + [] == delivered;
    }

    // Takes one frame.
    method ParseCvcdu(frame: seq<Byte>)
      requires Valid() && |frame| >= HEADER_SIZE && Fits(Abstract(), frame)
      modifies this, packetBuf
      ensures Valid() && Abstract() == Step(old(Abstract()), frame).state
      ensures delivered == old(delivered) + Step(old(Abstract()), frame).packets
    {
      hide Complete, PacketLength, Scan, Two;
      var w := Two(frame[0], frame[1]);
      var ver, fid := w / 0x4000, w % 64;
      var frameCnt := frame[2] as int * 0x1_0000 + Two(frame[3], frame[4]);
      var hdrOff := Two(frame[8], frame[9]) % 0x800;
      if ver == 0 || fid == 0 {
        assert delivered + [] == delivered;
        return;
      }
      var data := frame[HEADER_SIZE..];
      EmptyScan();
      if frameCnt == lastFrame + 1 {
        if partialPacket {
          if hdrOff == PACKET_FULL_MARK {
            hdrOff := |data|;
            Copy(data, packetOff);
            packetOff := packetOff + hdrOff;
          } else {
            ghost var pending := packetBuf[..packetOff];
            Copy(data[..hdrOff], packetOff);
            var _ := ParsePartial(packetBuf[..packetOff + hdrOff]);
            assert packetBuf[..packetOff] == packetBuf[..packetOff + hdrOff][..packetOff] == pending;
          }
        }
      } else {
        if hdrOff == PACKET_FULL_MARK {
          assert delivered + [] == delivered;
          return;
        }
        partialPacket := false;
        packetOff := 0;
      }
      lastFrame := frameCnt;
      assert delivered + [] == delivered;
      if hdrOff < |data| {
        ParsePackets(data, hdrOff);
      }
    }
  }

  lemma EmptyScan()
    ensures Scan([]) == ([], None)
  {}
}
