// Exactly which packets reassembly delivers when frames are lost: those all of whose frames
// arrive, up to the frame in which the receiver can tell that they are complete.
module PacketDelivery {
  import opened PacketReassembly
  import opened PacketLink

  // The frame that carries stream position x.
  function FrameOf(l: Link, x: nat): (f: nat)
    requires l.size > 0
  {
    x / l.size
  }

  lemma FrameOfMeans(l: Link, x: nat, f: nat)
    requires l.size > 0
    ensures f == FrameOf(l, x) <==> l.size * f <= x < End(l, f)
  {
    var q := x / l.size;
    assert l.size * q <= x < l.size * q + l.size;
    Silent0(l, f);
    if f < q {
      Grow(l.size, f + 1, q);
    } else if f > q {
      Grow(l.size, q + 1, f);
    }
    Grow(l.size, q, q);
  }

  lemma Silent0(l: Link, f: nat)
    ensures End(l, f) == l.size * f + l.size
  {
    Grow(l.size, f, f);
  }

  // The frame in which packet i starts.
  function First(l: Link, i: nat): nat
    requires l.size > 0 && i < |l.packets|
  {
    FrameOf(l, Start(l.packets, i))
  }

  // The frame in which packet i is found complete: where it ends, if that is where it starts,
  // and otherwise the frame with the next header.
  function Last(l: Link, i: nat): nat
    requires l.size > 0 && i < |l.packets|
  {
    if Start(l.packets, i + 1) == End(l, First(l, i)) then First(l, i) else FrameOf(l, Start(l.packets, i + 1))
  }

  predicate AllIn(numbers: seq<nat>, f: nat, g: int) {
    forall k: nat :: f <= k <= g ==> k in numbers
  }

  // All the frames that matter to packet i have arrived.
  predicate Whole(l: Link, numbers: seq<nat>, i: nat)
    requires l.size > 0 && i < |l.packets|
  {
    AllIn(numbers, First(l, i), Last(l, i))
  }

  // Packet i has arrived in part, up to and including frame q.
  predicate Held(l: Link, numbers: seq<nat>, i: nat, q: nat)
    requires l.size > 0 && i < |l.packets|
  {
    First(l, i) <= q < Last(l, i) && AllIn(numbers, First(l, i), q)
  }

  predicate Pending(l: Link, s: State, i: nat, q: nat) {
    s.lastFrame == l.base + q && s.pending.Some? && 0 <= End(l, q) && CutOff(l.packets, i, End(l, q), s.pending.value)
  }

  ghost predicate PendingExactly(l: Link, s: State, numbers: seq<nat>, q: nat)
    requires l.size > 0
  {
    forall i :: 0 <= i < |l.packets| ==> (Held(l, numbers, i, q) <==> Pending(l, s, i, q))
  }

  // Exactly the whole packets are delivered, and exactly a packet held in part is pending.
  ghost predicate Exactly(l: Link, s: State, idx: seq<nat>, numbers: seq<nat>)
    requires l.size > 0
  {
    (forall i :: 0 <= i < |l.packets| ==> (i in idx <==> Whole(l, numbers, i))) &&
    (|numbers| > 0 ==> PendingExactly(l, s, numbers, numbers[|numbers| - 1]))
  }

  lemma FirstMeans(l: Link, i: nat, k: nat)
    requires ValidLink(l) && i < |l.packets|
    ensures First(l, i) == k <==> l.size * k <= Start(l.packets, i) < End(l, k)
    ensures First(l, i) < k <==> Start(l.packets, i) < l.size * k
    ensures First(l, i) <= k <==> Start(l.packets, i) < End(l, k)
  {
    hide Start, End, FrameOf;
    var x, f := Start(l.packets, i), First(l, i);
    FrameOfMeans(l, x, k);
    FrameOfMeans(l, x, f);
    Silent0(l, k);
    if f < k { Silent(l, f, k); } else if k < f { Silent(l, k, f); }
  }

  lemma LastMeans(l: Link, i: nat, k: nat)
    requires ValidLink(l) && i < |l.packets|
    ensures First(l, i) <= Last(l, i)
    ensures First(l, i) == k ==> (Last(l, i) == k <==> Start(l.packets, i + 1) <= End(l, k))
    ensures First(l, i) < k ==> (Last(l, i) == k <==> l.size * k <= Start(l.packets, i + 1) < End(l, k) && Start(l.packets, i + 1) != End(l, First(l, i)))
    ensures First(l, i) < k ==> (Last(l, i) > k <==> Start(l.packets, i + 1) >= End(l, k))
  {
    hide Start, End, FrameOf, Stream;
    StartStep(l.packets, i);
    assert ValidPacket(l.packets[i]);
    var x, y, f := Start(l.packets, i), Start(l.packets, i + 1), First(l, i);
    var g := FrameOf(l, y);
    FrameOfMeans(l, x, f);
    FrameOfMeans(l, y, g);
    FrameOfMeans(l, y, k);
    FrameOfMeans(l, y, f);
    Silent0(l, k);
    Silent0(l, f);
    if f < k { Silent(l, f, k); }
    if g < k { Silent(l, g, k); } else if k < g { Silent(l, k, g); }
    if g < f { Silent(l, g, f); }
  }

  // ----- one frame ----------------------------------------------------------------------

  lemma FromNext(l: Link, x: nat, j: nat)
    requires ValidLink(l) && j < |l.packets|
    ensures Next(l.packets, x, 0) <= j <==> x <= Start(l.packets, j)
    ensures Next(l.packets, x, 0) <= j ==> Start(l.packets, Next(l.packets, x, 0)) <= Start(l.packets, j)
  {
    hide Start, Next;
    NextIsFirst(l.packets, x, 0);
    var n := Next(l.packets, x, 0);
    if n <= j {
      StartGrows(l.packets, n, j);
    }
  }

  lemma EndedMeans(l: Link, n: nat, y: nat, j: nat)
    requires ValidLink(l) && n <= j < |l.packets| && Start(l.packets, n) <= y <= |Stream(l.packets)|
    ensures j < Ended(l.packets, y, n) <==> Start(l.packets, j + 1) <= y
  {
    hide Start, Stream, Scan, Ended;
    ScanStream(l.packets, n, y);
    var m := Ended(l.packets, y, n);
    if j < m {
      StartGrows(l.packets, j + 1, m);
    } else {
      StartGrows(l.packets, m + 1, j + 1);
    }
  }

  // Without a header, no packet starts in the frame.
  lemma NoneStarts(l: Link, k: nat, frame: seq<Byte>, j: nat)
    requires ValidLink(l) && Carries(l, k, frame) && j < |l.packets| && First(l, j) == k
    ensures HeaderOffset(frame) != PACKET_FULL_MARK
  {
    hide Start, Stream, HeaderOffset, Version, FrameId, FrameCount, Data, End, First, Next;
    PointerMeans(l, k, frame);
    FirstMeans(l, j, k);
    FromNext(l, l.size * k, j);
  }

  // With a header, the packets that start and end in the frame are added.
  lemma AddedInFrame(l: Link, k: nat, frame: seq<Byte>, j: nat)
    requires ValidLink(l) && Carries(l, k, frame) && j < |l.packets| && HeaderOffset(frame) != PACKET_FULL_MARK
    ensures j in InFrame(l, Next(l.packets, l.size * k, 0), k) <==> First(l, j) == k == Last(l, j)
  {
    hide Start, Stream, HeaderOffset, Version, FrameId, FrameCount, Data, End, First, Last, Next, Ended;
    PointerMeans(l, k, frame);
    FirstMeans(l, j, k);
    LastMeans(l, j, k);
    var n := Next(l.packets, l.size * k, 0);
    FromNext(l, l.size * k, j);
    if n <= j {
      EndedMeans(l, n, End(l, k), j);
      StartGrows(l.packets, j, j + 1);
      Silent0(l, k);
    }
  }

  // Only one packet is cut off at a given place.
  lemma CutOffOnce(packets: seq<seq<Byte>>, i: nat, j: nat, y: nat, d: seq<Byte>, e: seq<Byte>)
    requires ValidPackets(packets) && CutOff(packets, i, y, d) && CutOff(packets, j, y, e)
    ensures i == j && d == e
  {
    CutOffNext(packets, i, y, d);
    CutOffNext(packets, j, y, e);
  }

  // With a header, the packet that starts in the frame and does not end in it is left pending.
  lemma LeftInFrame(l: Link, k: nat, frame: seq<Byte>, j: nat)
    requires ValidLink(l) && Carries(l, k, frame) && j < |l.packets| && HeaderOffset(frame) != PACKET_FULL_MARK
    ensures Pending(l, State(l.base + k, LeftIn(l, Next(l.packets, l.size * k, 0), k)), j, k) <==> First(l, j) == k < Last(l, j)
  {
    hide Start, Stream, HeaderOffset, Version, FrameId, FrameCount, Data, End, First, Last, Next, Ended, Scan;
    PointerMeans(l, k, frame);
    FirstMeans(l, j, k);
    LastMeans(l, j, k);
    WholeStream(l.packets);
    var n, y := Next(l.packets, l.size * k, 0), End(l, k);
    ScanStream(l.packets, n, y);
    var m := Ended(l.packets, y, n);
    FromNext(l, l.size * k, j);
    if Start(l.packets, m) < y {
      var d := Stream(l.packets)[Start(l.packets, m)..y];
      assert CutOff(l.packets, m, y, d);
      if Start(l.packets, j) < y <= Start(l.packets, j + 1) {
        CutOffOnce(l.packets, m, j, y, d, Stream(l.packets)[Start(l.packets, j)..y]);
      }
    } else if First(l, j) == k {
      if j < m {
        StartGrows(l.packets, j + 1, m);
      } else {
        StartGrows(l.packets, m, j);
      }
    }
  }

  lemma AllInMore(numbers: seq<nat>, k: nat, f: nat, g: int)
    requires forall j :: 0 <= j < |numbers| ==> numbers[j] < k
    ensures g < k ==> AllIn(numbers + [k], f, g) == AllIn(numbers, f, g)
    ensures g == k ==> AllIn(numbers + [k], f, g) == AllIn(numbers, f, k - 1)
    ensures f <= g && g > k ==> !AllIn(numbers + [k], f, g) && !AllIn(numbers, f, g)
    ensures f < k && (|numbers| == 0 || numbers[|numbers| - 1] < k - 1) ==> !AllIn(numbers, f, k - 1) || k - 1 in numbers
  {
    var all := numbers + [k];
    if g >= k && f <= g {
      if g > k {
        assert g !in all && g !in numbers;
      }
    }
    forall x: nat | x < k
      ensures x in all <==> x in numbers
    {}
    assert k in all;
  }

  // What is known before a frame arrives.
  ghost predicate Before(l: Link, s: State, out: seq<seq<Byte>>, idx: seq<nat>, numbers: seq<nat>, k: nat)
  {
    ValidLink(l) && (forall j :: 0 <= j < |numbers| ==> numbers[j] < k) &&
    (forall i, j :: 0 <= i < j < |numbers| ==> numbers[i] < numbers[j]) &&
    Inv(l, s, out, idx, if |numbers| == 0 then 0 else numbers[|numbers| - 1] + 1) && Exactly(l, s, idx, numbers)
  }

  // A packet is pending at the start of frame k just when all its frames so far have arrived.
  lemma PendingBefore(l: Link, s: State, out: seq<seq<Byte>>, idx: seq<nat>, numbers: seq<nat>, k: nat, j: nat)
    requires Before(l, s, out, idx, numbers, k) && j < |l.packets| && First(l, j) < k <= Last(l, j)
    ensures AllIn(numbers, First(l, j), k - 1) <==> Pending(l, s, j, k - 1)
  {
    hide First, Last, InStream, Whole, End;
    if |numbers| > 0 {
      var q := numbers[|numbers| - 1];
      if q < k - 1 {
        assert k - 1 !in numbers by { Largest(numbers, k - 1); }
      } else {
        assert Held(l, numbers, j, q) <==> Pending(l, s, j, q);
      }
    } else {
      assert k - 1 !in numbers;
    }
  }

  lemma Largest(numbers: seq<nat>, x: nat)
    requires |numbers| > 0 && numbers[|numbers| - 1] < x && forall i, j :: 0 <= i < j < |numbers| ==> numbers[i] < numbers[j]
    ensures x !in numbers
  {
    if x in numbers {
      var i :| 0 <= i < |numbers| && numbers[i] == x;
      assert false;
    }
  }

  // Whatever is pending when a frame follows on is a packet cut off where the frame starts.
  lemma FollowsOn(l: Link, s: State, out: seq<seq<Byte>>, idx: seq<nat>, numbers: seq<nat>, k: nat) returns (i: nat)
    requires Before(l, s, out, idx, numbers, k) && s.pending.Some? && s.lastFrame + 1 == l.base + k
    ensures 1 <= k && i < |l.packets| && Pending(l, s, i, k - 1) && First(l, i) < k && Next(l.packets, l.size * k, 0) == i + 1
    ensures Last(l, i) >= k && End(l, k - 1) == l.size * k
  {
    hide First, Last, Start, Stream, Next, Exactly;
    Silent(l, k - 1, k);
    i :| CutOff(l.packets, i, End(l, k - 1), s.pending.value) && Below(idx, i);
    CutOffNext(l.packets, i, End(l, k - 1), s.pending.value);
    FirstMeans(l, i, k);
    LastMeans(l, i, k);
    if k == 0 {
      assert false;
    }
    NotYet(l, s, out, idx, numbers, k, i);
  }

  // A packet that is pending has not been found complete.
  lemma NotYet(l: Link, s: State, out: seq<seq<Byte>>, idx: seq<nat>, numbers: seq<nat>, k: nat, i: nat)
    requires Before(l, s, out, idx, numbers, k) && 1 <= k && i < |l.packets| && Pending(l, s, i, k - 1)
    ensures Last(l, i) >= k
  {
    hide First, Last, InStream, Whole, End, CutOff;
    var q := numbers[|numbers| - 1];
    assert q == k - 1;
    assert Held(l, numbers, i, q) <==> Pending(l, s, i, q);
  }

  // Which packets one frame adds.
  lemma Added(l: Link, s: State, out: seq<seq<Byte>>, idx: seq<nat>, numbers: seq<nat>, k: nat, frame: seq<Byte>, more: seq<nat>, j: nat)
    requires Before(l, s, out, idx, numbers, k) && Carries(l, k, frame) && Outlined(l, s, k, frame, more) && j < |l.packets|
    ensures j in more <==> (First(l, j) == k == Last(l, j)) || (First(l, j) < k == Last(l, j) && AllIn(numbers, First(l, j), k - 1))
  {
    hide First, Last, Start, Stream, Next, InStream, Exactly, InFrame, LeftIn, Step, Version, FrameId, Data, Pointer, AllIn, Inv, CutOff, End;
    PointerMeans(l, k, frame);
    FirstMeans(l, j, k);
    LastMeans(l, j, k);
    Silent0(l, k);
    if First(l, j) < k <= Last(l, j) {
      PendingBefore(l, s, out, idx, numbers, k, j);
    }
    if HeaderOffset(frame) == PACKET_FULL_MARK {
      if First(l, j) == k {
        NoneStarts(l, k, frame, j);
      }
      if First(l, j) < k == Last(l, j) {
        EndsWithoutHeader(l, k, frame, j);
      }
    } else {
      AddedInFrame(l, k, frame, j);
      if FrameCount(frame) == s.lastFrame + 1 && s.pending.Some? {
        var i := FollowsOn(l, s, out, idx, numbers, k);
        TailEnds(l, k, frame, i);
        if First(l, j) < k == Last(l, j) && Pending(l, s, j, k - 1) {
          SamePending(l, s, i, j, k - 1);
        }
      }
    }
  }

  lemma SamePending(l: Link, s: State, i: nat, j: nat, q: nat)
    requires ValidLink(l) && Pending(l, s, i, q) && Pending(l, s, j, q)
    ensures i == j
  {
    CutOffOnce(l.packets, i, j, End(l, q), s.pending.value, s.pending.value);
  }

  // A packet that is found complete in a later frame is followed there by a header.
  lemma EndsWithoutHeader(l: Link, k: nat, frame: seq<Byte>, j: nat)
    requires ValidLink(l) && Carries(l, k, frame) && j < |l.packets| && First(l, j) < k == Last(l, j)
    ensures HeaderOffset(frame) != PACKET_FULL_MARK
  {
    hide Start, Stream, HeaderOffset, Version, FrameId, FrameCount, Data, End, First, Last, Next;
    PointerMeans(l, k, frame);
    FirstMeans(l, j, k);
    LastMeans(l, j, k);
    WholeStream(l.packets);
    if j + 1 < |l.packets| {
      FromNext(l, l.size * k, j + 1);
    }
  }

  // With a header, the packet cut off at the start of the frame is found complete in it.
  lemma TailEnds(l: Link, k: nat, frame: seq<Byte>, i: nat)
    requires ValidLink(l) && Carries(l, k, frame) && i < |l.packets| && HeaderOffset(frame) != PACKET_FULL_MARK
    requires First(l, i) < k <= Last(l, i) && Next(l.packets, l.size * k, 0) == i + 1
    ensures Last(l, i) == k
  {
    hide Start, Stream, HeaderOffset, Version, FrameId, FrameCount, Data, End, First, Last, Next;
    PointerMeans(l, k, frame);
    LastMeans(l, i, k);
  }

  // What one frame leaves pending.
  lemma LeftPending(l: Link, s: State, out: seq<seq<Byte>>, idx: seq<nat>, numbers: seq<nat>, k: nat, frame: seq<Byte>, more: seq<nat>, j: nat)
    requires Before(l, s, out, idx, numbers, k) && Carries(l, k, frame) && Outlined(l, s, k, frame, more) && j < |l.packets|
    ensures Pending(l, Step(s, frame).state, j, k) <==>
      k < Last(l, j) && (First(l, j) == k || (First(l, j) < k && AllIn(numbers, First(l, j), k - 1)))
  {
    hide First, Last, Start, Stream, Next, InStream, Exactly, InFrame, LeftIn, Step, Version, FrameId, Pointer, AllIn, Scan, Complete, PacketLength, Data, End;
    PointerMeans(l, k, frame);
    if First(l, j) < k <= Last(l, j) {
      PendingBefore(l, s, out, idx, numbers, k, j);
    }
    if HeaderOffset(frame) != PACKET_FULL_MARK {
      LeftInFrame(l, k, frame, j);
      if First(l, j) < k < Last(l, j) && Pending(l, s, j, k - 1) {
        var i := FollowsOn(l, s, out, idx, numbers, k);
        SamePending(l, s, i, j, k - 1);
        TailEnds(l, k, frame, i);
        assert false;
      }
    } else {
      if First(l, j) == k {
        NoneStarts(l, k, frame, j);
        assert false;
      }
      FirstMeans(l, j, k);
      if FrameCount(frame) == s.lastFrame + 1 && s.pending.Some? {
        var i := FollowsOn(l, s, out, idx, numbers, k);
        MiddlePending(l, s, k, frame, i, j);
        if First(l, j) < k < Last(l, j) && Pending(l, s, j, k - 1) {
          SamePending(l, s, i, j, k - 1);
        }
      } else {
        assert !Pending(l, Step(s, frame).state, j, k);
      }
    }
  }

  // The packet that a frame without a header carries on is still pending.
  lemma MiddlePending(l: Link, s: State, k: nat, frame: seq<Byte>, i: nat, j: nat)
    requires ValidLink(l) && Carries(l, k, frame) && HeaderOffset(frame) == PACKET_FULL_MARK && i < |l.packets| && j < |l.packets|
    requires 1 <= k && Pending(l, s, i, k - 1) && First(l, i) < k <= Last(l, i) && Next(l.packets, l.size * k, 0) == i + 1
    ensures Last(l, i) > k
    ensures Pending(l, State(l.base + k, Some(s.pending.value + Data(frame))), j, k) <==> i == j
  {
    hide Start, Stream, HeaderOffset, Version, FrameId, FrameCount, Data, First, Last, Next, End;
    PointerMeans(l, k, frame);
    Silent(l, k - 1, k);
    FirstMeans(l, i, k);
    LastMeans(l, i, k);
    WholeStream(l.packets);
    var d, y := s.pending.value + Data(frame), End(l, k);
    assert Stream(l.packets)[Start(l.packets, i)..y] == s.pending.value + Stream(l.packets)[l.size * k..y];
    assert CutOff(l.packets, i, y, d);
    if CutOff(l.packets, j, y, d) {
      CutOffOnce(l.packets, i, j, y, d, d);
    }
  }

  lemma WholeMore(l: Link, numbers: seq<nat>, k: nat, j: nat)
    requires l.size > 0 && j < |l.packets| && First(l, j) <= Last(l, j) && forall i :: 0 <= i < |numbers| ==> numbers[i] < k
    ensures Whole(l, numbers + [k], j) <==> Whole(l, numbers, j) || (Last(l, j) == k && AllIn(numbers, First(l, j), k - 1))
    ensures Held(l, numbers + [k], j, k) <==> First(l, j) <= k < Last(l, j) && AllIn(numbers, First(l, j), k - 1)
  {
    hide First, Last;
    AllInMore(numbers, k, First(l, j), Last(l, j));
    AllInMore(numbers, k, First(l, j), k);
    if Last(l, j) == k {
      assert k !in numbers;
    }
  }

  lemma NothingToCarry(numbers: seq<nat>, f: nat, k: nat)
    requires f == k
    ensures AllIn(numbers, f, k - 1)
  {}

  // One more frame.
  lemma ExactStep(l: Link, s: State, out: seq<seq<Byte>>, idx: seq<nat>, numbers: seq<nat>, k: nat, frame: seq<Byte>) returns (more: seq<nat>)
    requires Before(l, s, out, idx, numbers, k) && Carries(l, k, frame)
    ensures Before(l, Step(s, frame).state, out + Step(s, frame).packets, idx + more, numbers + [k], k + 1)
  {
    hide First, Last, Step, InStream, HeaderOffset, Version, FrameId, FrameCount, Pointer, Data, End, Held, Whole, Outlined, Pending;
    more := StepKeeps(l, s, out, idx, if |numbers| == 0 then 0 else numbers[|numbers| - 1] + 1, k, frame);
    forall j | 0 <= j < |l.packets|
      ensures j in idx + more <==> Whole(l, numbers + [k], j)
      ensures Held(l, numbers + [k], j, k) <==> Pending(l, Step(s, frame).state, j, k)
    {
      LastMeans(l, j, k);
      Added(l, s, out, idx, numbers, k, frame, more, j);
      LeftPending(l, s, out, idx, numbers, k, frame, more, j);
      WholeMore(l, numbers, k, j);
      if First(l, j) == k {
        NothingToCarry(numbers, First(l, j), k);
      }
    }
  }

  lemma StartsExactly(l: Link, k: nat)
    requires ValidLink(l)
    ensures Before(l, INITIAL, [], [], [], k)
  {
    hide InStream, First, Last;
    NothingYet(l);
    forall j | 0 <= j < |l.packets|
      ensures !Whole(l, [], j)
    {
      LastMeans(l, j, 0);
      assert First(l, j) !in [];
    }
  }

  lemma {:induction false} ExactRun(l: Link, numbers: seq<nat>, frames: seq<seq<Byte>>, k: nat) returns (idx: seq<nat>)
    requires ValidLink(l) && Arrives(l, numbers, frames) && forall j :: 0 <= j < |numbers| ==> numbers[j] < k
    ensures Before(l, Run(INITIAL, frames).state, Run(INITIAL, frames).packets, idx, numbers, k)
    decreases |frames|
  {
    hide Step, Inv, Exactly, HeaderOffset, FrameCount, Version, FrameId, Pointer, Data, End, Arrives, Carries, Before;
    if |frames| == 0 {
      NoneArrived(l, numbers, frames);
      idx := [];
      StartsExactly(l, k);
    } else {
      var m := |frames| - 1;
      LastArrived(l, numbers, frames);
      idx := ExactRun(l, numbers[..m], frames[..m], numbers[m]);
      var before := Run(INITIAL, frames[..m]);
      var more := ExactStep(l, before.state, before.packets, idx, numbers[..m], numbers[m], frames[m]);
      idx := idx + more;
      assert numbers[..m] + [numbers[m]] == numbers;
      BeforeLater(l, Run(INITIAL, frames).state, Run(INITIAL, frames).packets, idx, numbers, numbers[m] + 1, k);
    }
  }

  lemma BeforeLater(l: Link, s: State, out: seq<seq<Byte>>, idx: seq<nat>, numbers: seq<nat>, k: nat, later: nat)
    requires Before(l, s, out, idx, numbers, k) && forall j :: 0 <= j < |numbers| ==> numbers[j] < later
    ensures Before(l, s, out, idx, numbers, later)
  {
    hide Inv, Exactly;
  }

  // Whatever frames are lost: the packets handed on are sent packets, in sending order and each
  // at most once, and they are exactly those all of whose frames arrived.
  lemma DeliveredExactly(l: Link, numbers: seq<nat>, frames: seq<seq<Byte>>) returns (idx: seq<nat>)
    requires ValidLink(l) && Arrives(l, numbers, frames)
    ensures Increasing(idx) && Chosen(l.packets, Run(INITIAL, frames).packets, idx)
    ensures forall i :: 0 <= i < |l.packets| ==> (i in idx <==> Whole(l, numbers, i))
  {
    hide Step, InStream, HeaderOffset, FrameCount, Version, FrameId, Pointer, Data, End, First, Last, Held, Pending;
    idx := ExactRun(l, numbers, frames, if |numbers| == 0 then 0 else numbers[|numbers| - 1] + 1);
  }

  // ----- nothing lost -------------------------------------------------------------------

  lemma HeadIn(idx: seq<nat>)
    ensures |idx| > 0 ==> idx[0] in idx
  {}

  lemma LargestIn(idx: seq<nat>, p: nat)
    requires Increasing(idx) && p < |idx|
    ensures p == |idx| - 1 || (idx[p] < idx[|idx| - 1] && idx[|idx| - 1] in idx)
  {}

  lemma ChosenAre(packets: seq<seq<Byte>>, out: seq<seq<Byte>>, idx: seq<nat>)
    requires Chosen(packets, out, idx)
    ensures forall i :: i in idx ==> i < |packets|
  {}

  lemma {:induction false} IncreasingPrefix(idx: seq<nat>, m: nat)
    requires Increasing(idx) && forall i: nat :: i in idx <==> i < m
    ensures idx == Range(0, m)
    decreases m
  {
    if m == 0 {
      HeadIn(idx);
    } else {
      assert m - 1 in idx;
      var p :| 0 <= p < |idx| && idx[p] == m - 1;
      LargestIn(idx, p);
      var rest := idx[..p];
      forall i: nat
        ensures i in rest <==> i < m - 1
      {
        if i < m - 1 {
          assert i in idx;
        }
      }
      IncreasingPrefix(rest, m - 1);
    }
  }

  lemma LastGrows(l: Link, i: nat, j: nat)
    requires ValidLink(l) && i <= j < |l.packets|
    ensures Last(l, i) <= Last(l, j)
  {
    hide First, Last, Start, End;
    LastMeans(l, j, Last(l, j));
    LastMeans(l, i, Last(l, j));
    FirstMeans(l, i, Last(l, j));
    FirstMeans(l, j, Last(l, j));
    StartGrows(l.packets, i, j);
    StartGrows(l.packets, i + 1, j + 1);
    Silent0(l, Last(l, j));
  }

  // The packets that can be told complete by the end of the first n frames.
  function Told(l: Link, n: nat, i: nat): (m: nat)
    requires ValidLink(l) && i <= |l.packets|
    ensures i <= m <= |l.packets|
    decreases |l.packets| - i
  {
    if i == |l.packets| || Last(l, i) >= n then i else Told(l, n, i + 1)
  }

  lemma {:induction false} ToldMeans(l: Link, n: nat, i: nat, j: nat)
    requires ValidLink(l) && i <= j < |l.packets|
    ensures j < Told(l, n, i) <==> Last(l, j) < n
    decreases |l.packets| - i
  {
    hide First, Last;
    if Last(l, i) >= n {
      LastGrows(l, i, j);
    } else if i < j {
      ToldMeans(l, n, i + 1, j);
    }
  }

  // With no frame lost, a prefix of the packets is delivered, and at most one packet that has
  // arrived in full is still held back.
  lemma NothingLost(l: Link, frames: seq<seq<Byte>>)
    requires ValidLink(l) && |frames| > 0 && Arrives(l, Range(0, |frames|), frames)
    ensures var m, n := Told(l, |frames|, 0), Ended(l.packets, End(l, |frames| - 1), 0);
      Run(INITIAL, frames).packets == l.packets[..m] && m <= n <= m + 1
  {
    hide Step, HeaderOffset, FrameCount, Version, FrameId, Pointer, Data, First, Last, Start, Stream, End, Ended;
    var idx := DeliveredExactly(l, Range(0, |frames|), frames);
    var m := Told(l, |frames|, 0);
    ChosenAre(l.packets, Run(INITIAL, frames).packets, idx);
    forall i: nat
      ensures i in idx <==> i < m
    {
      if i < |l.packets| {
        LastMeans(l, i, 0);
        ToldMeans(l, |frames|, 0, i);
        assert Last(l, i) in Range(0, |frames|) <==> Last(l, i) < |frames|;
      }
    }
    IncreasingPrefix(idx, m);
    OnePending(l, |frames|);
  }

  lemma OnePending(l: Link, n: nat)
    requires ValidLink(l) && n > 0 && 0 <= End(l, n - 1) <= |Stream(l.packets)|
    ensures Told(l, n, 0) <= Ended(l.packets, End(l, n - 1), 0) <= Told(l, n, 0) + 1
  {
    hide First, Last, Start, Stream, End, Ended, Told, Scan;
    var m, y := Told(l, n, 0), End(l, n - 1);
    NothingBefore(l);
    if m > 0 {
      ToldMeans(l, n, 0, m - 1);
      LastMeans(l, m - 1, n - 1);
      EndOfLast(l, m - 1, n - 1);
      EndedMeans(l, 0, y, m - 1);
    }
    if m + 1 < |l.packets| {
      ToldMeans(l, n, 0, m);
      EndOfNext(l, m, n - 1);
      StartGrows(l.packets, m + 1, m + 2);
      EndedMeans(l, 0, y, m + 1);
    }
  }

  lemma NothingBefore(l: Link)
    ensures Start(l.packets, 0) == 0
  {}

  lemma EndOfLast(l: Link, i: nat, k: nat)
    requires ValidLink(l) && i < |l.packets| && Last(l, i) <= k
    ensures Start(l.packets, i + 1) <= End(l, k)
  {
    hide First, Last, Start, End;
    var g := Last(l, i);
    LastMeans(l, i, g);
    Grow(l.size, g + 1, k + 1);
    Silent0(l, g);
    Silent0(l, k);
    Silent(l, k, k + 1);
    if g < k { Silent(l, g, k); }
  }

  lemma EndOfNext(l: Link, i: nat, k: nat)
    requires ValidLink(l) && i < |l.packets| && Last(l, i) > k
    ensures Start(l.packets, i + 1) >= End(l, k)
  {
    hide First, Last, Start, End;
    LastMeans(l, i, k);
    FirstMeans(l, i, k);
    Silent0(l, k);
    if First(l, i) > k {
      FirstMeans(l, i, First(l, i));
      Silent(l, k, First(l, i));
      StartGrows(l.packets, i, i + 1);
    }
  }

  // ----- the receiver's buffer ----------------------------------------------------------

  // What is pending when a frame follows on.
  lemma PendingHere(l: Link, s: State, idx: seq<nat>, k: nat) returns (i: nat)
    requires ValidLink(l) && InStream(l, s, idx) && s.pending.Some? && s.lastFrame + 1 == l.base + k
    ensures 0 <= l.size * k && CutOff(l.packets, i, l.size * k, s.pending.value)
  {
    hide Start, Stream, End;
    Silent(l, k - 1, k);
    assert s.lastFrame - l.base == k - 1;
    i :| CutOff(l.packets, i, End(l, k - 1), s.pending.value) && Below(idx, i);
  }

  // On such a link the packet buffer never overflows.
  lemma FrameFits(l: Link, s: State, out: seq<seq<Byte>>, idx: seq<nat>, k: nat, frame: seq<Byte>)
    requires ValidLink(l) && Inv(l, s, out, idx, k) && IsFrame(l, k, frame)
    ensures Fits(s, frame)
  {
    hide Start, Stream, HeaderOffset, Version, FrameId, FrameCount, Data, Next, End, Pointer, InStream;
    FrameCarries(l, k, frame);
    PointerMeans(l, k, frame);
    if FrameCount(frame) == s.lastFrame + 1 && s.pending.Some? {
      var i := PendingHere(l, s, idx, k);
      CutOffNext(l.packets, i, l.size * k, s.pending.value);
      StartStep(l.packets, i);
      Silent0(l, k);
      assert ValidPacket(l.packets[i]);
      WholeStream(l.packets);
    }
  }

  // Feeds the frames that arrive to the receiver, in order.
  method ReceiveAll(receiver: Packeter, ghost l: Link, ghost numbers: seq<nat>, frames: seq<seq<Byte>>) returns (ghost idx: seq<nat>)
    requires receiver.Valid() && receiver.Abstract() == INITIAL && receiver.delivered == []
    requires ValidLink(l) && Arrives(l, numbers, frames)
    modifies receiver, receiver.packetBuf
    ensures receiver.Valid() && Increasing(idx) && Chosen(l.packets, receiver.delivered, idx)
    ensures forall i :: 0 <= i < |l.packets| ==> (i in idx <==> Whole(l, numbers, i))
  {
    hide Step, InStream, HeaderOffset, FrameCount, Version, FrameId, Pointer, Data, End, First, Last, Held, Pending, Exactly;
    for j := 0 to |frames|
      invariant receiver.Valid()
      invariant receiver.Abstract() == Run(INITIAL, frames[..j]).state && receiver.delivered == Run(INITIAL, frames[..j]).packets
    {
      ghost var sofar := ExactRun(l, numbers[..j], frames[..j], numbers[j]);
      FrameFits(l, receiver.Abstract(), receiver.delivered, sofar, numbers[j], frames[j]);
      receiver.ParseCvcdu(frames[j]);
      assert frames[..j + 1][..j] == frames[..j];
    }
    assert frames[..|frames|] == frames;
    idx := DeliveredExactly(l, numbers, frames);
  }
}
