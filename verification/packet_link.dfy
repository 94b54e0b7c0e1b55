// Packets over a lossy link: what the sender lays into frames, and what reassembly delivers
// when any of the frames are lost.
module PacketLink {
  import opened PacketReassembly

  // ----- the sender ---------------------------------------------------------------------

  // A packet of at most 2048 bytes: bytes 4 and 5 hold its length less 7, high byte first.
  predicate ValidPacket(p: seq<Byte>) {
    7 <= |p| <= BUFFER_SIZE && p[4] == (|p| - 7) / 256 && p[5] == (|p| - 7) % 256
  }

  lemma ValidLength(p: seq<Byte>)
    requires ValidPacket(p)
    ensures |p| == PacketLength(p)
  {}

  predicate ValidPackets(packets: seq<seq<Byte>>) {
    forall i :: 0 <= i < |packets| ==> ValidPacket(packets[i])
  }

  // All packets, one after the other.
  function Stream(packets: seq<seq<Byte>>): seq<Byte> {
    if |packets| == 0 then [] else Stream(packets[..|packets| - 1]) + packets[|packets| - 1]
  }

  // Where packet i starts in the stream.
  function Start(packets: seq<seq<Byte>>, i: nat): nat
    requires i <= |packets|
  {
    |Stream(packets[..i])|
  }

  lemma StartStep(packets: seq<seq<Byte>>, i: nat)
    requires i < |packets|
    ensures Start(packets, i + 1) == Start(packets, i) + |packets[i]|
    ensures Stream(packets[..i + 1]) == Stream(packets[..i]) + packets[i]
  {
    assert packets[..i + 1][..i] == packets[..i];
  }

  lemma {:induction false} StartGrows(packets: seq<seq<Byte>>, i: nat, j: nat)
    requires ValidPackets(packets) && i <= j <= |packets|
    ensures Start(packets, i) + 7 * (j - i) <= Start(packets, j)
    decreases j
  {
    if i < j {
      StartGrows(packets, i, j - 1);
      StartStep(packets, j - 1);
      assert ValidPacket(packets[j - 1]);
    }
  }

  lemma {:induction false} StreamPrefix(packets: seq<seq<Byte>>, i: nat)
    requires i <= |packets|
    ensures Start(packets, i) <= |Stream(packets)| && Stream(packets)[..Start(packets, i)] == Stream(packets[..i])
    decreases |packets| - i
  {
    if i == |packets| {
      assert packets[..i] == packets;
    } else {
      StreamPrefix(packets, i + 1);
      StartStep(packets, i);
      var s := Stream(packets[..i + 1]);
      assert s[..Start(packets, i)] == Stream(packets[..i]);
      assert Stream(packets)[..Start(packets, i)] == Stream(packets)[..Start(packets, i + 1)][..Start(packets, i)];
    }
  }

  // The stream holds each packet at its start.
  lemma PacketInStream(packets: seq<seq<Byte>>, i: nat)
    requires i < |packets|
    ensures Start(packets, i + 1) <= |Stream(packets)| && Start(packets, i + 1) == Start(packets, i) + |packets[i]|
    ensures Stream(packets)[Start(packets, i)..Start(packets, i + 1)] == packets[i]
  {
    StartStep(packets, i);
    StreamPrefix(packets, i + 1);
    var a := Start(packets, i);
    assert Stream(packets)[a..Start(packets, i + 1)] == Stream(packets)[..Start(packets, i + 1)][a..];
  }

  // The first packet that starts at x or later.
  function Next(packets: seq<seq<Byte>>, x: int, i: nat): (n: nat)
    requires i <= |packets|
    ensures i <= n <= |packets|
    decreases |packets| - i
  {
    if i == |packets| || Start(packets, i) >= x then i else Next(packets, x, i + 1)
  }

  lemma {:induction false} NextIsFirst(packets: seq<seq<Byte>>, x: int, i: nat)
    requires ValidPackets(packets) && i <= |packets|
    ensures var n := Next(packets, x, i);
      (n < |packets| ==> Start(packets, n) >= x) && forall k :: i <= k < n ==> Start(packets, k) < x
    decreases |packets| - i
  {
    if i < |packets| && Start(packets, i) < x {
      NextIsFirst(packets, x, i + 1);
    }
  }

  // The header pointer of the frame that carries the stream from x to y.
  function Pointer(packets: seq<seq<Byte>>, x: nat, y: nat): nat {
    var n := Next(packets, x, 0);
    if x <= Start(packets, n) < y then Start(packets, n) - x else PACKET_FULL_MARK
  }

  datatype Link = Link(packets: seq<seq<Byte>>, size: nat, base: nat)

  predicate ValidLink(l: Link) {
    ValidPackets(l.packets) && 1 <= l.size < PACKET_FULL_MARK
  }

  // The end of frame number q in the stream.
  function End(l: Link, q: int): int {
    l.size * (q + 1)
  }

  // ----- the layout of a frame ------------------------------------------------------------

  // The fields of a frame's headers. The receiver does not read craft, other and spare.
  datatype Header = Header(version: nat, craft: nat, id: nat, count: nat, other: seq<Byte>, spare: nat, pointer: nat)

  predicate ValidHeader(h: Header) {
    h.version < 4 && h.craft < 256 && h.id < 64 && h.count < 0x100_0000 && |h.other| == 3 && h.spare < 32 && h.pointer < 0x800
  }

  // Every field with its highest bits first: two bits of version, eight of craft and six of id in
  // two bytes, the counter in three, and five spare bits and eleven of the pointer in the last two.
  function Laid(h: Header, data: seq<Byte>): (frame: seq<Byte>)
    requires ValidHeader(h)
    ensures |frame| == HEADER_SIZE + |data|
  {
    [64 * h.version + h.craft / 4, 64 * (h.craft % 4) + h.id, h.count / 0x1_0000, h.count / 256 % 256, h.count % 256] +
    h.other + [8 * h.spare + h.pointer / 256, h.pointer % 256] + data
  }

  // Whatever is laid into a frame is read back.
  lemma LaidIsRead(h: Header, data: seq<Byte>)
    requires ValidHeader(h)
    ensures var frame := Laid(h, data);
      Version(frame) == h.version && FrameId(frame) == h.id && FrameCount(frame) == h.count &&
      HeaderOffset(frame) == h.pointer && Data(frame) == data
  {
    var frame := Laid(h, data);
    FirstWord(h.version, h.craft, h.id);
    Digits(h.count);
    PointerWord(h.spare, h.pointer);
    assert Data(frame) == data;
  }

  lemma FirstWord(version: nat, craft: nat, id: nat)
    requires version < 4 && craft < 256 && id < 64
    ensures Two(64 * version + craft / 4, 64 * (craft % 4) + id) == 0x4000 * version + 64 * craft + id
    ensures (0x4000 * version + 64 * craft + id) / 0x4000 == version && (0x4000 * version + 64 * craft + id) % 64 == id
  {
    assert 0x4000 * version + 64 * craft + id == 64 * (256 * version + craft) + id;
  }

  lemma Digits(count: nat)
    requires count < 0x100_0000
    ensures count / 0x1_0000 < 256 && (count / 0x1_0000) * 0x1_0000 + Two(count / 256 % 256, count % 256) == count
  {
    assert count / 256 / 256 == count / 0x1_0000;
  }

  lemma PointerWord(spare: nat, pointer: nat)
    requires spare < 32 && pointer < 0x800
    ensures Two(8 * spare + pointer / 256, pointer % 256) % 0x800 == pointer
  {
    assert Two(8 * spare + pointer / 256, pointer % 256) == 0x800 * spare + pointer;
  }

  // A packet is read back, too: its length field, and where it ends.
  lemma PacketIsRead(head: seq<Byte>, body: seq<Byte>, more: seq<Byte>)
    requires |head| == 4 && 1 <= |body| <= 0x1_0000
    ensures var p := head + [(|body| - 1) / 256, (|body| - 1) % 256] + body;
      PacketLength(p) == |p| == |body| + 6 && Complete(p + more) && (p + more)[..PacketLength(p + more)] == p
  {
    var p := head + [(|body| - 1) / 256, (|body| - 1) % 256] + body;
    assert (p + more)[..|p|] == p;
  }

  // Frame k of the link, whatever is in the fields that the receiver does not read.
  ghost predicate IsFrame(l: Link, k: nat, frame: seq<Byte>) {
    0 <= l.size * k <= End(l, k) <= |Stream(l.packets)| &&
    exists h: Header :: ValidHeader(h) && h.version > 0 && h.id > 0 && h.count == l.base + k &&
      h.pointer == Pointer(l.packets, l.size * k, End(l, k)) && frame == Laid(h, Stream(l.packets)[l.size * k..End(l, k)])
  }

  // What the receiver sees of such a frame.
  predicate Carries(l: Link, k: nat, frame: seq<Byte>) {
    |frame| == HEADER_SIZE + l.size && Version(frame) != 0 && FrameId(frame) != 0 &&
    FrameCount(frame) == l.base + k && 0 <= l.size * k <= End(l, k) <= |Stream(l.packets)| &&
    HeaderOffset(frame) == Pointer(l.packets, l.size * k, End(l, k)) &&
    Data(frame) == Stream(l.packets)[l.size * k..End(l, k)]
  }

  lemma FrameCarries(l: Link, k: nat, frame: seq<Byte>)
    requires IsFrame(l, k, frame)
    ensures Carries(l, k, frame)
  {
    hide Version, FrameId, FrameCount, HeaderOffset, Data, Laid, Stream, Pointer;
    var h: Header :| ValidHeader(h) && h.version > 0 && h.id > 0 && h.count == l.base + k &&
      h.pointer == Pointer(l.packets, l.size * k, End(l, k)) && frame == Laid(h, Stream(l.packets)[l.size * k..End(l, k)]);
    LaidIsRead(h, Stream(l.packets)[l.size * k..End(l, k)]);
  }

  // The frames that arrive: numbers[j] is the number of the j-th.
  ghost predicate Arrives(l: Link, numbers: seq<nat>, frames: seq<seq<Byte>>) {
    |numbers| == |frames| && (forall j :: 0 <= j < |frames| ==> |frames[j]| >= HEADER_SIZE && IsFrame(l, numbers[j], frames[j])) &&
    forall i, j :: 0 <= i < j < |numbers| ==> numbers[i] < numbers[j]
  }

  lemma LastArrived(l: Link, numbers: seq<nat>, frames: seq<seq<Byte>>)
    requires Arrives(l, numbers, frames) && |frames| > 0
    ensures var m := |frames| - 1;
      |numbers| == |frames| && Arrives(l, numbers[..m], frames[..m]) && Carries(l, numbers[m], frames[m]) &&
      (forall j :: 0 <= j < m ==> numbers[j] < numbers[m]) && (forall j :: 0 <= j < |frames| ==> |frames[j]| >= HEADER_SIZE)
  {
    hide IsFrame, Carries;
    FrameCarries(l, numbers[|frames| - 1], frames[|frames| - 1]);
  }

  lemma NoneArrived(l: Link, numbers: seq<nat>, frames: seq<seq<Byte>>)
    requires Arrives(l, numbers, frames) && |frames| == 0
    ensures numbers == [] && frames == []
  {}

  // A frame of version 0 or id 0 is empty: it changes nothing, wherever it comes in.
  lemma EmptyIsIgnored(s: State, h: Header, data: seq<Byte>)
    requires ValidHeader(h) && (h.version == 0 || h.id == 0)
    ensures Step(s, Laid(h, data)) == Outcome(s, [])
  {
    hide Version, FrameId, FrameCount, HeaderOffset, Data, Laid;
    LaidIsRead(h, data);
  }

  // If a header pointer says that a packet ends where it does not, what is pending is given up and
  // the frame is taken as if nothing had been pending, unless it holds nothing else.
  lemma UnfinishedIsGivenUp(s: State, h: Header, data: seq<Byte>)
    requires ValidHeader(h) && h.version != 0 && h.id != 0 && h.count == s.lastFrame + 1
    requires s.pending.Some? && h.pointer <= |data| && h.pointer != PACKET_FULL_MARK
    requires !Complete(s.pending.value + data[..h.pointer])
    ensures Step(s, Laid(h, data)) ==
      if h.pointer < |data| then Step(s.(pending := None), Laid(h, data)) else Outcome(s.(lastFrame := h.count), [])
  {
    hide Version, FrameId, FrameCount, HeaderOffset, Data, Laid, Complete;
    LaidIsRead(h, data);
    assert FromHeader(data, h.pointer) == data[h.pointer..];
  }

  // ----- the receiver -------------------------------------------------------------------

  function Run(s: State, frames: seq<seq<Byte>>): Outcome
    requires forall j :: 0 <= j < |frames| ==> |frames[j]| >= HEADER_SIZE
  {
    if |frames| == 0 then Outcome(s, [])
    else
      var before := Run(s, frames[..|frames| - 1]);
      var last := Step(before.state, frames[|frames| - 1]);
      Outcome(last.state, before.packets + last.packets)
  }

  // ----- scanning the stream ------------------------------------------------------------

  // The number of packets that end at y or before.
  function Ended(packets: seq<seq<Byte>>, y: int, i: nat): (n: nat)
    requires i <= |packets|
    ensures i <= n <= |packets|
    decreases |packets| - i
  {
    if i == |packets| || Start(packets, i + 1) > y then i else Ended(packets, y, i + 1)
  }

  // What starts like a packet of the stream is complete when the whole packet is there.
  lemma CompleteInStream(packets: seq<seq<Byte>>, i: nat, y: nat)
    requires ValidPackets(packets) && i < |packets| && Start(packets, i) <= y <= |Stream(packets)|
    ensures var d := Stream(packets)[Start(packets, i)..y];
      (Complete(d) <==> Start(packets, i + 1) <= y) && (Complete(d) ==> PacketLength(d) == |packets[i]| && d[..PacketLength(d)] == packets[i])
  {
    hide Stream, Two, Start;
    PacketInStream(packets, i);
    assert ValidPacket(packets[i]);
    ValidLength(packets[i]);
    var a, b := Start(packets, i), Start(packets, i + 1);
    var s := Stream(packets);
    var d := s[a..y];
    if |d| >= 6 {
      assert d[4] == s[a..b][4] && d[5] == s[a..b][5];
      if b <= y {
        assert d[..b - a] == s[a..b];
      }
    }
  }

  function Left(packets: seq<seq<Byte>>, m: nat, y: nat): Option<seq<Byte>>
    requires m <= |packets| && y <= |Stream(packets)|
  {
    if Start(packets, m) < y then Some(Stream(packets)[Start(packets, m)..y]) else None
  }

  // Scanning from a packet's start delivers every packet that ends in time.
  lemma {:induction false} ScanStream(packets: seq<seq<Byte>>, i: nat, y: nat)
    requires ValidPackets(packets) && i <= |packets| && Start(packets, i) <= y <= |Stream(packets)|
    ensures var m := Ended(packets, y, i);
      Start(packets, m) <= y && (m < |packets| ==> y < Start(packets, m + 1)) &&
      Scan(Stream(packets)[Start(packets, i)..y]) == (packets[i..m], Left(packets, m, y))
    decreases |packets| - i
  {
    hide Complete, Start;
    var d := Stream(packets)[Start(packets, i)..y];
    StreamPrefix(packets, i);
    WholeStream(packets);
    if i == |packets| {
      assert d == [];
      assert packets[i..i] == [];
    } else {
      CompleteInStream(packets, i, y);
      if Start(packets, i + 1) <= y {
        PacketInStream(packets, i);
        ScanStream(packets, i + 1, y);
        assert d[PacketLength(d)..] == Stream(packets)[Start(packets, i + 1)..y];
        var m := Ended(packets, y, i);
        assert [packets[i]] + packets[i + 1..m] == packets[i..m];
      } else {
        assert packets[i..i] == [];
      }
    }
  }

  lemma WholeStream(packets: seq<seq<Byte>>)
    ensures Start(packets, |packets|) == |Stream(packets)|
  {
    assert packets[..|packets|] == packets;
  }

  // ----- what is delivered --------------------------------------------------------------

  predicate Increasing(idx: seq<nat>) {
    forall i, j :: 0 <= i < j < |idx| ==> idx[i] < idx[j]
  }

  // The delivered packets are the sent packets with the given numbers.
  predicate Chosen(packets: seq<seq<Byte>>, out: seq<seq<Byte>>, idx: seq<nat>) {
    |out| == |idx| && forall j :: 0 <= j < |out| ==> idx[j] < |packets| && out[j] == packets[idx[j]]
  }

  predicate Below(idx: seq<nat>, n: nat) {
    forall j :: 0 <= j < |idx| ==> idx[j] < n
  }

  function Range(n: nat, m: nat): (r: seq<nat>)
    requires n <= m
    ensures |r| == m - n && forall j :: 0 <= j < m - n ==> r[j] == n + j
    ensures forall j :: j in r <==> n <= j < m
  {
    if n == m then [] else Range(n, m - 1) + [m - 1]
  }

  // Packet i is cut off at y.
  predicate CutOff(packets: seq<seq<Byte>>, i: nat, y: nat, d: seq<Byte>) {
    i < |packets| && y <= |Stream(packets)| && Start(packets, i) < y <= Start(packets, i + 1) && d == Stream(packets)[Start(packets, i)..y]
  }

  // The receiver's state fits the stream up to the end of the last frame it counted.
  ghost predicate InStream(l: Link, s: State, idx: seq<nat>) {
    var y := End(l, s.lastFrame - l.base);
    match s.pending
    case None => Below(idx, Next(l.packets, y, 0))
    case Some(d) => 0 <= y && exists i :: CutOff(l.packets, i, y, d) && Below(idx, i)
  }

  // What holds after any frames with numbers below r have arrived.
  ghost predicate Inv(l: Link, s: State, out: seq<seq<Byte>>, idx: seq<nat>, r: nat) {
    Increasing(idx) && Chosen(l.packets, out, idx) && InStream(l, s, idx) &&
    (s.lastFrame - l.base < r || (s.pending == None && idx == []))
  }

  lemma NextUnique(packets: seq<seq<Byte>>, x: int, n: nat)
    requires ValidPackets(packets) && n <= |packets|
    requires (n < |packets| ==> x <= Start(packets, n)) && (n > 0 ==> Start(packets, n - 1) < x)
    ensures Next(packets, x, 0) == n
  {
    hide Start;
    NextIsFirst(packets, x, 0);
    var m := Next(packets, x, 0);
    if m < n {
      StartGrows(packets, m, n - 1);
    }
  }

  lemma NextMonotone(packets: seq<seq<Byte>>, x: int, y: int)
    requires ValidPackets(packets) && x <= y
    ensures Next(packets, x, 0) <= Next(packets, y, 0)
  {
    hide Start;
    NextIsFirst(packets, x, 0);
    NextIsFirst(packets, y, 0);
  }

  // The packets from n on that end by the end of frame q, and what is left of the next one.
  function InFrame(l: Link, n: nat, q: nat): (r: seq<nat>)
    requires n <= |l.packets|
    ensures forall j :: j in r <==> n <= j < Ended(l.packets, End(l, q), n)
  {
    Range(n, Ended(l.packets, End(l, q), n))
  }

  function LeftIn(l: Link, n: nat, q: nat): Option<seq<Byte>>
    requires n <= |l.packets| && 0 <= End(l, q) <= |Stream(l.packets)|
  {
    Left(l.packets, Ended(l.packets, End(l, q), n), End(l, q))
  }

  // Scanning from packet n on keeps everything in order.
  lemma ScanKeeps(l: Link, out: seq<seq<Byte>>, idx: seq<nat>, n: nat, q: nat) returns (more: seq<nat>)
    requires ValidLink(l) && Increasing(idx) && Chosen(l.packets, out, idx) && Below(idx, n)
    requires n <= |l.packets| && Start(l.packets, n) <= End(l, q) <= |Stream(l.packets)|
    ensures var (packets, rest) := Scan(Stream(l.packets)[Start(l.packets, n)..End(l, q)]);
      Inv(l, State(l.base + q, rest), out + packets, idx + more, q + 1) && more == InFrame(l, n, q) && rest == LeftIn(l, n, q)
  {
    hide Start, Stream, Scan, End;
    var y := End(l, q);
    ScanStream(l.packets, n, y);
    var m := Ended(l.packets, y, n);
    more := Range(n, m);
    var rest := Left(l.packets, m, y);
    WholeStream(l.packets);
    assert InStream(l, State(l.base + q, rest), idx + more) by {
      if Start(l.packets, m) < y {
        assert CutOff(l.packets, m, y, rest.value);
      } else {
        if m > 0 { StartGrows(l.packets, m - 1, m); }
        NextUnique(l.packets, y, m);
      }
    }
  }

  // Nothing starts in the frame: the receiver has nothing new to hand on.
  lemma Silent(l: Link, q: int, k: nat)
    requires ValidLink(l) && q < k
    ensures End(l, q) <= l.size * k && End(l, k - 1) == l.size * k && End(l, k) == l.size * k + l.size
  {
    Grow(l.size, q + 1, k);
  }

  lemma Grow(a: nat, x: int, y: int)
    requires x <= y
    ensures a * x <= a * y && a * (y + 1) == a * y + a
  {
    assert a * y == a * x + a * (y - x);
  }

  // The pointer leads to the first packet that starts in the frame.
  lemma PointerMeans(l: Link, k: nat, frame: seq<Byte>)
    requires ValidLink(l) && Carries(l, k, frame)
    ensures var x, y, n := l.size * k, End(l, k), Next(l.packets, l.size * k, 0);
      |Data(frame)| == l.size &&
      if HeaderOffset(frame) == PACKET_FULL_MARK then n == |l.packets| || y <= Start(l.packets, n)
      else x <= Start(l.packets, n) < y && HeaderOffset(frame) == Start(l.packets, n) - x && HeaderOffset(frame) < l.size &&
           Data(frame)[HeaderOffset(frame)..] == Stream(l.packets)[Start(l.packets, n)..y]
  {
    hide Start, Stream, HeaderOffset, Version, FrameId, FrameCount;
    Silent(l, k - 1, k);
    NextIsFirst(l.packets, l.size * k, 0);
  }

  // A packet cut off at x and what follows it.
  lemma CutOffNext(packets: seq<seq<Byte>>, i: nat, x: nat, d: seq<Byte>)
    requires ValidPackets(packets) && CutOff(packets, i, x, d)
    ensures Next(packets, x, 0) == i + 1
  {
    NextUnique(packets, x, i + 1);
  }

  // The rest of a packet that was cut off completes it.
  lemma Completed(packets: seq<seq<Byte>>, i: nat, x: nat, d: seq<Byte>, rest: seq<Byte>)
    requires ValidPackets(packets) && CutOff(packets, i, x, d)
    requires Start(packets, i + 1) <= |Stream(packets)| && rest == Stream(packets)[x..Start(packets, i + 1)]
    ensures Complete(d + rest) && (d + rest)[..PacketLength(d + rest)] == packets[i]
  {
    hide Start, Stream, Complete, PacketLength;
    var a, b := Start(packets, i), Start(packets, i + 1);
    assert d + rest == Stream(packets)[a..b];
    CompleteInStream(packets, i, b);
  }

  // Which packets a frame adds, and what it leaves pending.
  predicate Outlined(l: Link, s: State, k: nat, frame: seq<Byte>, more: seq<nat>)
    requires |frame| >= HEADER_SIZE && 0 <= End(l, k) <= |Stream(l.packets)|
  {
    var n := Next(l.packets, l.size * k, 0);
    var follows := FrameCount(frame) == s.lastFrame + 1;
    var t := Step(s, frame).state;
    if HeaderOffset(frame) == PACKET_FULL_MARK then
      more == [] &&
      (!follows ==> t == s) &&
      (follows ==> t == State(l.base + k, if s.pending.None? then None else Some(s.pending.value + Data(frame))))
    else
      t == State(l.base + k, LeftIn(l, n, k)) &&
      if follows && s.pending.Some? then n > 0 && more == [n - 1] + InFrame(l, n, k) else more == InFrame(l, n, k)
  }

  // A frame that does not follow on: the receiver starts afresh at the header, if there is one.
  lemma Resumed(l: Link, s: State, out: seq<seq<Byte>>, idx: seq<nat>, k: nat, frame: seq<Byte>) returns (more: seq<nat>)
    requires ValidLink(l) && Inv(l, s, out, idx, k) && Carries(l, k, frame)
    requires (HeaderOffset(frame) != PACKET_FULL_MARK && s.pending == None) || FrameCount(frame) != s.lastFrame + 1
    ensures Inv(l, Step(s, frame).state, out + Step(s, frame).packets, idx + more, k + 1)
    ensures Outlined(l, s, k, frame, more)
  {
    hide Start, Stream, HeaderOffset, Version, FrameId, FrameCount, Scan, Complete, End, Data, Next, InFrame, LeftIn;
    PointerMeans(l, k, frame);
    Silent(l, k - 1, k);
    more := [];
    assert idx + more == idx && out + [] == out;
    if HeaderOffset(frame) != PACKET_FULL_MARK {
      BelowNext(l, s, idx, k);
      more := ScanKeeps(l, out, idx, Next(l.packets, l.size * k, 0), k);
    }
  }

  // Whatever the receiver has handed on lies before frame k.
  lemma BelowNext(l: Link, s: State, idx: seq<nat>, k: nat)
    requires ValidLink(l) && InStream(l, s, idx) && (s.lastFrame - l.base < k || (s.pending == None && idx == []))
    ensures Below(idx, Next(l.packets, l.size * k, 0))
  {
    hide Start, Stream, Next, End;
    var q := s.lastFrame - l.base;
    if q < k {
      Silent(l, q, k);
      NextMonotone(l.packets, End(l, q), l.size * k);
      if s.pending.Some? {
        var i :| CutOff(l.packets, i, End(l, q), s.pending.value) && Below(idx, i);
        CutOffNext(l.packets, i, End(l, q), s.pending.value);
      }
    }
  }

  // A frame without a header, with nothing pending.
  lemma Idle(l: Link, s: State, out: seq<seq<Byte>>, idx: seq<nat>, k: nat, frame: seq<Byte>)
    requires ValidLink(l) && Inv(l, s, out, idx, k) && Carries(l, k, frame)
    requires HeaderOffset(frame) == PACKET_FULL_MARK && s.pending == None && FrameCount(frame) == s.lastFrame + 1
    ensures Step(s, frame) == Outcome(State(l.base + k, None), [])
    ensures Inv(l, State(l.base + k, None), out, idx, k + 1)
  {
    hide Start, Stream, HeaderOffset, Version, FrameId, FrameCount, Complete, End, Data, Next;
    PointerMeans(l, k, frame);
    EmptyScan();
    Silent(l, k - 1, k);
    NextMonotone(l.packets, End(l, k - 1), End(l, k));
  }

  // A frame that carries nothing but the middle of a packet.
  lemma Middle(l: Link, s: State, out: seq<seq<Byte>>, idx: seq<nat>, k: nat, frame: seq<Byte>, i: nat)
    requires ValidLink(l) && Inv(l, s, out, idx, k) && Carries(l, k, frame)
    requires s.pending.Some? && FrameCount(frame) == s.lastFrame + 1 && HeaderOffset(frame) == PACKET_FULL_MARK
    requires CutOff(l.packets, i, l.size * k, s.pending.value) && Below(idx, i)
    ensures Step(s, frame) == Outcome(State(l.base + k, Some(s.pending.value + Data(frame))), [])
    ensures Inv(l, State(l.base + k, Some(s.pending.value + Data(frame))), out, idx, k + 1)
  {
    hide Start, Stream, HeaderOffset, Version, FrameId, FrameCount, Scan, Complete, End, Data, Next, PacketLength;
    PointerMeans(l, k, frame);
    Silent(l, k - 1, k);
    CutOffNext(l.packets, i, l.size * k, s.pending.value);
    WholeStream(l.packets);
    var d := s.pending.value + Data(frame);
    assert Stream(l.packets)[Start(l.packets, i)..End(l, k)] == s.pending.value + Stream(l.packets)[l.size * k..End(l, k)];
    assert CutOff(l.packets, i, End(l, k), d);
  }

  // A frame that carries the end of a packet.
  lemma Tail(l: Link, s: State, out: seq<seq<Byte>>, idx: seq<nat>, k: nat, frame: seq<Byte>, i: nat) returns (more: seq<nat>)
    requires ValidLink(l) && Inv(l, s, out, idx, k) && Carries(l, k, frame)
    requires s.pending.Some? && FrameCount(frame) == s.lastFrame + 1 && HeaderOffset(frame) != PACKET_FULL_MARK
    requires CutOff(l.packets, i, l.size * k, s.pending.value) && Below(idx, i)
    ensures Step(s, frame) == Outcome(State(l.base + k, Scan(Data(frame)[HeaderOffset(frame)..]).1), [l.packets[i]] + Scan(Data(frame)[HeaderOffset(frame)..]).0)
    ensures Inv(l, Step(s, frame).state, out + Step(s, frame).packets, idx + more, k + 1)
    ensures Outlined(l, s, k, frame, more)
  {
    hide Start, Stream, HeaderOffset, Version, FrameId, FrameCount, Scan, Complete, End, Data, Next, PacketLength, InStream, InFrame, LeftIn;
    PointerMeans(l, k, frame);
    Silent(l, k - 1, k);
    CutOffNext(l.packets, i, l.size * k, s.pending.value);
    StreamPrefix(l.packets, i + 1);
    var rest := Data(frame)[..HeaderOffset(frame)];
    assert rest == Stream(l.packets)[l.size * k..Start(l.packets, i + 1)];
    Completed(l.packets, i, l.size * k, s.pending.value, rest);
    var later := ScanKeeps(l, out + [l.packets[i]], idx + [i], i + 1, k);
    more := [i] + later;
    assert idx + more == idx + [i] + later;
    var packets := Scan(Data(frame)[HeaderOffset(frame)..]).0;
    assert out + ([l.packets[i]] + packets) == out + [l.packets[i]] + packets;
  }

  // A frame that continues a packet.
  lemma Continued(l: Link, s: State, out: seq<seq<Byte>>, idx: seq<nat>, k: nat, frame: seq<Byte>) returns (more: seq<nat>)
    requires ValidLink(l) && Inv(l, s, out, idx, k) && Carries(l, k, frame)
    requires s.pending.Some? && FrameCount(frame) == s.lastFrame + 1
    ensures Inv(l, Step(s, frame).state, out + Step(s, frame).packets, idx + more, k + 1)
    ensures Outlined(l, s, k, frame, more)
  {
    hide Start, Stream, HeaderOffset, Version, FrameId, FrameCount, Step, End, Data, Next, CutOff, Pointer;
    Silent(l, k - 1, k);
    var i :| CutOff(l.packets, i, End(l, k - 1), s.pending.value) && Below(idx, i);
    if HeaderOffset(frame) == PACKET_FULL_MARK {
      Middle(l, s, out, idx, k, frame, i);
      more := [];
      assert idx + more == idx && out + [] == out;
    } else {
      more := Tail(l, s, out, idx, k, frame, i);
    }
  }

  lemma StepKeeps(l: Link, s: State, out: seq<seq<Byte>>, idx: seq<nat>, r: nat, k: nat, frame: seq<Byte>) returns (more: seq<nat>)
    requires ValidLink(l) && Inv(l, s, out, idx, r) && r <= k && Carries(l, k, frame)
    ensures Inv(l, Step(s, frame).state, out + Step(s, frame).packets, idx + more, k + 1)
    ensures Outlined(l, s, k, frame, more)
  {
    hide Step, InStream, HeaderOffset, Pointer, Data, FrameCount;
    assert Inv(l, s, out, idx, k);
    if FrameCount(frame) != s.lastFrame + 1 {
      more := Resumed(l, s, out, idx, k, frame);
    } else if s.pending.Some? {
      more := Continued(l, s, out, idx, k, frame);
    } else if HeaderOffset(frame) != PACKET_FULL_MARK {
      more := Resumed(l, s, out, idx, k, frame);
    } else {
      Idle(l, s, out, idx, k, frame);
      more := [];
      assert idx + more == idx && out + [] == out;
    }
  }

  // Whatever frames are lost, every packet handed on is a sent packet, in sending order and at
  // most once.
  lemma {:induction false} LossyDelivery(l: Link, numbers: seq<nat>, frames: seq<seq<Byte>>) returns (idx: seq<nat>)
    requires ValidLink(l) && Arrives(l, numbers, frames)
    ensures Increasing(idx) && Chosen(l.packets, Run(INITIAL, frames).packets, idx)
    ensures Inv(l, Run(INITIAL, frames).state, Run(INITIAL, frames).packets, idx, if |numbers| == 0 then 0 else numbers[|numbers| - 1] + 1)
    decreases |frames|
  {
    hide Step, InStream, HeaderOffset, FrameCount, Version, FrameId, Pointer, Data, End, Arrives, Carries;
    if |frames| == 0 {
      NoneArrived(l, numbers, frames);
      idx := [];
      assert InStream(l, INITIAL, []) by { NothingYet(l); }
    } else {
      var m := |frames| - 1;
      LastArrived(l, numbers, frames);
      idx := LossyDelivery(l, numbers[..m], frames[..m]);
      var before := Run(INITIAL, frames[..m]);
      var more := StepKeeps(l, before.state, before.packets, idx, if m == 0 then 0 else numbers[m - 1] + 1, numbers[m], frames[m]);
      idx := idx + more;
    }
  }

  lemma NothingYet(l: Link)
    ensures InStream(l, INITIAL, [])
  {}
}
