// Framing of AR2300 receiver data (ar2300_source_impl.cc): eight-byte samples marked by their low
// bits, read in calls of any size, with resynchronisation one byte at a time. A sample is named by
// the position of its first byte in the stream.
module Ar2300Framing {

  const SAMPLE := 8
  const CONSECUTIVE_WARNING_LIMIT := 10

  // A sample is kept as its eight bytes; its value is a function of them.
  type Sample = s: seq<bv8> | |s| == SAMPLE witness [0, 0, 0, 0, 0, 0, 0, 0]

  // The low bits of bytes 1, 3, 5 and 7 are 1, 0, 0 and 0.
  predicate ValidSample(s: seq<bv8>) {
    |s| == SAMPLE && s[1] & 1 == 1 && s[3] & 1 == 0 && s[5] & 1 == 0 && s[7] & 1 == 0
  }

  // Only byte 1 is odd among the bytes at odd places.
  predicate Marked(s: seq<bv8>) {
    |s| == SAMPLE && s[1] as int % 2 == 1 && s[3] as int % 2 == 0 && s[5] as int % 2 == 0 && s[7] as int % 2 == 0
  }

  lemma LowBit(b: bv8)
    ensures (b & 1) as int == b as int % 2
  {}

  lemma ValidIsMarked(s: seq<bv8>)
    ensures ValidSample(s) <==> Marked(s)
  {
    if |s| == SAMPLE {
      LowBit(s[1]);
      LowBit(s[3]);
      LowBit(s[5]);
      LowBit(s[7]);
    }
  }

  predicate StartsValid(b: seq<bv8>) {
    |b| >= SAMPLE && ValidSample(b[..SAMPLE])
  }

  // What comes of a stretch of bytes: where the samples start, the bytes left over, the number
  // of windows rejected in a row, and whether there were too many of them.
  datatype Outcome = Outcome(starts: seq<nat>, rest: seq<bv8>, warns: nat, failed: bool)

  function Join(starts: seq<nat>, o: Outcome): Outcome {
    o.(starts := starts + o.starts)
  }

  // Windows are taken one after the other; a rejected one gives up only its first byte. The
  // bytes b stand at position at of the stream.
  function Scan(b: seq<bv8>, at: nat, warns: nat): (o: Outcome)
    ensures |o.rest| <= |b| && (!o.failed ==> |o.rest| < SAMPLE)
    ensures !o.failed && warns <= CONSECUTIVE_WARNING_LIMIT ==> o.warns <= CONSECUTIVE_WARNING_LIMIT
    decreases |b|
  {
    if |b| < SAMPLE then Outcome([], b, warns, false)
    else if StartsValid(b) then Join([at], Scan(b[SAMPLE..], at + SAMPLE, 0))
    else if warns + 1 > CONSECUTIVE_WARNING_LIMIT then Outcome([], b, warns + 1, true)
    else Scan(b[1..], at + 1, warns + 1)
  }

  // The bytes left over make a sample with the first bytes of the next call.
  predicate Rebuilds(leftover: seq<bv8>, input: seq<bv8>) {
    |leftover| > 0 && StartsValid(leftover + input)
  }

  // One call, with the bytes that the previous call left over; the input stands at position at.
  function Encode(leftover: seq<bv8>, input: seq<bv8>, at: nat, warns: nat): (o: Outcome)
    requires |leftover| < SAMPLE <= |input| && |leftover| <= at
    ensures |o.rest| <= |input| && (!o.failed ==> |o.rest| < SAMPLE)
    ensures !o.failed && warns <= CONSECUTIVE_WARNING_LIMIT ==> o.warns <= CONSECUTIVE_WARNING_LIMIT
  {
    var need := SAMPLE - |leftover|;
    if Rebuilds(leftover, input) then Join([at - |leftover|], Scan(input[need..], at + need, warns))
    else Scan(input, at, warns)
  }

  // ----- the samples of a stream ----------------------------------------------------------

  predicate InRange(b: seq<bv8>, starts: seq<nat>) {
    forall i :: 0 <= i < |starts| ==> starts[i] + SAMPLE <= |b|
  }

  // The samples that start at the given positions.
  function Picked(b: seq<bv8>, starts: seq<nat>): (r: seq<Sample>)
    requires InRange(b, starts)
    ensures |r| == |starts|
  {
    seq(|starts|, i requires 0 <= i < |starts| => b[starts[i]..starts[i] + SAMPLE])
  }

  // Every start is that of a window that passes the check, in the bytes that are used up, and
  // no byte is used twice. What is left over is the end of the stream.
  ghost predicate Sound(b: seq<bv8>, from: nat, o: Outcome) {
    from + |o.rest| <= |b| && b[|b| - |o.rest|..] == o.rest &&
    (forall i :: 0 <= i < |o.starts| ==> from <= o.starts[i] && o.starts[i] + SAMPLE <= |b| - |o.rest| && StartsValid(b[o.starts[i]..])) &&
    (forall i, j :: 0 <= i < j < |o.starts| ==> o.starts[i] + SAMPLE <= o.starts[j])
  }

  lemma {:induction false} ScanSound(b: seq<bv8>, from: nat, warns: nat)
    requires from <= |b|
    ensures Sound(b, from, Scan(b[from..], from, warns))
    decreases |b| - from
  {
    hide StartsValid, Scan, Sound, Join;
    var c := b[from..];
    if |c| < SAMPLE {
      ShortScan(c, from, warns);
      SoundNothing(b, from, warns, false);
    } else if StartsValid(c) {
      assert c[SAMPLE..] == b[from + SAMPLE..];
      ScanValid(c, from, warns);
      ScanSound(b, from + SAMPLE, 0);
      SoundOne(b, from, Scan(c[SAMPLE..], from + SAMPLE, 0));
    } else if warns < CONSECUTIVE_WARNING_LIMIT {
      assert c[1..] == b[from + 1..];
      ScanInvalid(c, from, warns);
      ScanSound(b, from + 1, warns + 1);
      SoundEarlier(b, from, Scan(c[1..], from + 1, warns + 1));
    } else {
      ScanFails(c, from, warns);
      SoundNothing(b, from, warns + 1, true);
    }
  }

  lemma SoundNothing(b: seq<bv8>, from: nat, warns: nat, failed: bool)
    requires from <= |b|
    ensures Sound(b, from, Outcome([], b[from..], warns, failed))
  {}

  lemma SoundOne(b: seq<bv8>, from: nat, o: Outcome)
    requires from + SAMPLE <= |b| && StartsValid(b[from..]) && Sound(b, from + SAMPLE, o)
    ensures Sound(b, from, Join([from], o))
  {
    hide StartsValid;
  }

  lemma SoundEarlier(b: seq<bv8>, from: nat, o: Outcome)
    requires Sound(b, from + 1, o)
    ensures Sound(b, from, o)
  {
    hide StartsValid;
  }

  lemma ShortScan(b: seq<bv8>, at: nat, warns: nat)
    requires |b| < SAMPLE
    ensures Scan(b, at, warns) == Outcome([], b, warns, false)
  {}

  lemma ScanValid(b: seq<bv8>, at: nat, warns: nat)
    requires StartsValid(b)
    ensures |b| >= SAMPLE && Scan(b, at, warns) == Join([at], Scan(b[SAMPLE..], at + SAMPLE, 0))
  {}

  lemma ScanInvalid(b: seq<bv8>, at: nat, warns: nat)
    requires |b| >= SAMPLE && !StartsValid(b) && warns < CONSECUTIVE_WARNING_LIMIT
    ensures Scan(b, at, warns) == Scan(b[1..], at + 1, warns + 1)
  {}

  lemma ScanFails(b: seq<bv8>, at: nat, warns: nat)
    requires |b| >= SAMPLE && !StartsValid(b) && warns >= CONSECUTIVE_WARNING_LIMIT
    ensures Scan(b, at, warns) == Outcome([], b, warns + 1, true)
  {}

  lemma EncodeSound(before: seq<bv8>, leftover: seq<bv8>, input: seq<bv8>, warns: nat)
    requires |leftover| < SAMPLE <= |input| && |leftover| <= |before| && before[|before| - |leftover|..] == leftover
    ensures Sound(before + input, |before| - |leftover|, Encode(leftover, input, |before|, warns))
  {
    hide StartsValid, Scan;
    var b, need := before + input, SAMPLE - |leftover|;
    assert b[|before| - |leftover|..] == leftover + input;
    if Rebuilds(leftover, input) {
      assert input[need..] == b[|before| + need..];
      ScanSound(b, |before| + need, warns);
    } else {
      assert input == b[|before|..];
      ScanSound(b, |before|, warns);
    }
  }

  // ----- the receiver ---------------------------------------------------------------------

  class Source {
    var leftover: array<bv8>
    var numLeftover: nat
    var warns: nat

    ghost predicate Valid()
      reads this
    {
      leftover.Length == SAMPLE && numLeftover < SAMPLE
    }

    ghost function Left(): seq<bv8>
      requires Valid()
      reads this, leftover
    {
      leftover[..numLeftover]
    }

    constructor ()
      ensures Valid() && Left() == [] && warns == 0 && fresh(leftover)
    {
      leftover := new bv8[SAMPLE](_ => 0);
      numLeftover, warns := 0, 0;
    }

    // Takes the samples out of one buffer. When too many windows are rejected in a row the call fails.
    method EncodeAr2300(input: seq<bv8>) returns (out: seq<Sample>, failed: bool)
      requires Valid() && |input| >= SAMPLE
      modifies this, leftover
      ensures Valid() && leftover == old(leftover)
      ensures var l := old(Left()); var o := Encode(l, input, |l|, old(warns));
        InRange(l + input, o.starts) && out == Picked(l + input, o.starts) &&
        failed == o.failed && warns == o.warns && Left() == if failed then l else o.rest
      ensures forall i :: 0 <= i < |out| ==> Marked(out[i])
    {
      hide Scan, StartsValid, Picked, Marked;
      out := [];
      var startIndex := 0;
      ghost var l := Left();
      ghost var taken: seq<nat> := [];
      EncodeSound(l, l, input, warns);
      if numLeftover > 0 {
        var sample := leftover[..numLeftover] + input[..SAMPLE - numLeftover];
        assert sample == (l + input)[..SAMPLE];
        SampleIsStart(l + input);
        if ValidSample(sample) {
          out := [sample];
          taken := [0];
          startIndex := SAMPLE - numLeftover;
          OnePicked(l + input);
        }
      }
      assert |taken| == 0 ==> input[startIndex..] == input && !Rebuilds(l, input);
      NonePicked(l + input);
      var more, rest;
      ghost var o := Scan(input[startIndex..], |l| + startIndex, warns);
      assert Encode(l, input, |l|, warns) == Join(taken, o) by { assert [] + o.starts == o.starts; }
      more, rest, failed := ScanLoop(input, startIndex, l);
      PickedJoin(l + input, taken, o.starts);
      out := out + more;
      PickedMarked(l + input, Encode(l, input, |l|, old(warns)));
      if !failed {
        Save(rest);
      }
    }

    // The loop over the bytes, which steps its own index back after a rejected window. The
    // bytes l come before the input.
    method ScanLoop(input: seq<bv8>, startIndex: nat, ghost l: seq<bv8>) returns (out: seq<Sample>, sample: seq<bv8>, failed: bool)
      requires startIndex <= |input|
      modifies this`warns
      ensures var o := Scan(input[startIndex..], |l| + startIndex, old(warns));
        InRange(l + input, o.starts) && out == Picked(l + input, o.starts) &&
        failed == o.failed && warns == o.warns && (!failed ==> sample == o.rest && |sample| < SAMPLE)
    {
      hide ValidSample, StartsValid, Scan, Join, Picked;
      out, sample, failed := [], [], false;
      ghost var whole := Scan(input[startIndex..], |l| + startIndex, warns);
      ghost var taken: seq<nat> := [];
      NonePicked(l + input);
      JoinFirst(whole);
      var i := startIndex;
      while i < |input|
        invariant |sample| < SAMPLE && startIndex + |sample| <= i <= |input| && sample == input[i - |sample|..i]
        invariant whole == Join(taken, Scan(input[i - |sample|..], |l| + i - |sample|, warns))
        invariant InRange(l + input, taken) && out == Picked(l + input, taken)
        decreases |input| - (i - |sample|), SAMPLE - |sample|
      {
        ghost var w0 := warns;
        sample := sample + [input[i]];
        ghost var w := i + 1 - |sample|;
        assert sample == input[w..i + 1];
        if |sample| == SAMPLE {
          OneWindow(input, l, w, taken, w0);
          if !ValidSample(sample) {
            sample := [];
            i := i - 7;
            warns := warns + 1;
            if warns > CONSECUTIVE_WARNING_LIMIT {
              failed := true;
              return;
            }
          } else {
            out := out + [sample];
            taken := taken + [|l| + w];
            sample := [];
            warns := 0;
          }
        }
        i := i + 1;
      }
      assert input[i - |sample|..] == sample;
      JoinRest(taken, sample, |l| + i - |sample|, warns);
    }

    method Save(rest: seq<bv8>)
      requires Valid() && |rest| < SAMPLE
      modifies this`numLeftover, leftover
      ensures Valid() && Left() == rest
    {
      for i := 0 to |rest|
        invariant leftover[..i] == rest[..i]
      {
        leftover[i] := rest[i];
      }
      numLeftover := |rest|;
    }
  }

  lemma PickedMarked(b: seq<bv8>, o: Outcome)
    requires Sound(b, 0, o) && InRange(b, o.starts)
    ensures forall i :: 0 <= i < |o.starts| ==> Marked(Picked(b, o.starts)[i])
  {
    hide ValidSample, Marked;
    forall i | 0 <= i < |o.starts|
      ensures Marked(Picked(b, o.starts)[i])
    {
      assert b[o.starts[i]..][..SAMPLE] == b[o.starts[i]..o.starts[i] + SAMPLE];
      ValidIsMarked(Picked(b, o.starts)[i]);
    }
  }

  lemma SampleIsStart(b: seq<bv8>)
    requires |b| >= SAMPLE
    ensures ValidSample(b[..SAMPLE]) == StartsValid(b)
  {}

  lemma NonePicked(b: seq<bv8>)
    ensures InRange(b, []) && Picked(b, []) == []
  {}

  lemma OnePicked(b: seq<bv8>)
    requires |b| >= SAMPLE
    ensures InRange(b, [0]) && Picked(b, [0]) == [b[..SAMPLE]]
  {}

  lemma PickedJoin(b: seq<bv8>, starts: seq<nat>, more: seq<nat>)
    requires InRange(b, starts) && InRange(b, more)
    ensures InRange(b, starts + more) && Picked(b, starts + more) == Picked(b, starts) + Picked(b, more)
  {}

  lemma JoinFirst(o: Outcome)
    ensures Join([], o) == o
  {
    assert [] + o.starts == o.starts;
  }

  // What one window does to the rest of the scan.
  lemma OneWindow(input: seq<bv8>, l: seq<bv8>, w: nat, taken: seq<nat>, warns: nat)
    requires w + SAMPLE <= |input| && InRange(l + input, taken)
    ensures var s, at, whole := input[w..w + SAMPLE], |l| + w, Join(taken, Scan(input[w..], |l| + w, warns));
      if ValidSample(s) then
        whole == Join(taken + [at], Scan(input[w + SAMPLE..], at + SAMPLE, 0)) &&
        InRange(l + input, taken + [at]) && Picked(l + input, taken + [at]) == Picked(l + input, taken) + [s]
      else if warns + 1 > CONSECUTIVE_WARNING_LIMIT then whole == Outcome(taken, input[w..], warns + 1, true)
      else whole == Join(taken, Scan(input[w + 1..], at + 1, warns + 1))
  {
    hide ValidSample;
    var b := input[w..];
    assert b[..SAMPLE] == input[w..w + SAMPLE] && b[SAMPLE..] == input[w + SAMPLE..] && b[1..] == input[w + 1..];
    assert (l + input)[|l| + w..|l| + w + SAMPLE] == input[w..w + SAMPLE];
    var later := Scan(input[w + SAMPLE..], |l| + w + SAMPLE, 0);
    assert taken + ([|l| + w] + later.starts) == taken + [|l| + w] + later.starts;
    assert taken + [] == taken;
  }

  lemma JoinRest(taken: seq<nat>, b: seq<bv8>, at: nat, warns: nat)
    requires |b| < SAMPLE
    ensures Join(taken, Scan(b, at, warns)) == Outcome(taken, b, warns, false)
  {
    assert taken + [] == taken;
  }

  // ----- many calls -----------------------------------------------------------------------

  // The bytes of all the calls.
  function Concat(chunks: seq<seq<bv8>>): seq<bv8> {
    if |chunks| == 0 then [] else Concat(chunks[..|chunks| - 1]) + chunks[|chunks| - 1]
  }

  predicate Calls(chunks: seq<seq<bv8>>) {
    forall i :: 0 <= i < |chunks| ==> |chunks[i]| >= SAMPLE
  }

  // All the calls, one after the other, from the start; none comes after one that fails.
  function EncodeAll(chunks: seq<seq<bv8>>): (o: Outcome)
    requires Calls(chunks)
    ensures |o.rest| <= |Concat(chunks)| && (!o.failed ==> |o.rest| < SAMPLE && o.warns <= CONSECUTIVE_WARNING_LIMIT)
  {
    if |chunks| == 0 then Outcome([], [], 0, false) else
      var before, x := chunks[..|chunks| - 1], chunks[|chunks| - 1];
      var o := EncodeAll(before);
      if o.failed then o else Join(o.starts, Encode(o.rest, x, |Concat(before)|, o.warns))
  }

  lemma CallsMore(before: seq<seq<bv8>>, x: seq<bv8>)
    requires Calls(before) && |x| >= SAMPLE
    ensures Calls(before + [x]) && Concat(before + [x]) == Concat(before) + x
    ensures var o := EncodeAll(before);
      EncodeAll(before + [x]) == if o.failed then o else Join(o.starts, Encode(o.rest, x, |Concat(before)|, o.warns))
  {
    assert (before + [x])[..|before|] == before;
  }

  // Whatever comes in and however it is cut, only windows of the stream that pass the check are
  // output, in order, and no byte belongs to two of them.
  lemma {:induction false} OnlyValidated(chunks: seq<seq<bv8>>)
    requires Calls(chunks)
    ensures EncodeAll(chunks).failed || Sound(Concat(chunks), 0, EncodeAll(chunks))
    ensures EncodeAll(chunks).failed ==> Sound(Concat(chunks), 0, EncodeAll(chunks).(rest := []))
    decreases |chunks|
  {
    hide Encode, StartsValid;
    if |chunks| > 0 {
      var before, x := chunks[..|chunks| - 1], chunks[|chunks| - 1];
      assert chunks == before + [x];
      var b, o := Concat(before), EncodeAll(before);
      CallsMore(before, x);
      OnlyValidated(before);
      if !o.failed {
        EncodeSound(b, o.rest, x, o.warns);
        SoundJoin(b, x, o, Encode(o.rest, x, |b|, o.warns));
      } else {
        SoundLonger(b, x, o.(rest := []));
      }
    }
  }

  lemma SoundJoin(b: seq<bv8>, x: seq<bv8>, o: Outcome, p: Outcome)
    requires Sound(b, 0, o) && Sound(b + x, |b| - |o.rest|, p)
    ensures Sound(b + x, 0, Join(o.starts, p)) && Sound(b + x, 0, Join(o.starts, p).(rest := []))
  {
    hide StartsValid;
    forall i | 0 <= i < |o.starts|
      ensures StartsValid((b + x)[o.starts[i]..])
    {
      ValidLonger(b, x, o.starts[i]);
    }
  }

  lemma SoundLonger(b: seq<bv8>, x: seq<bv8>, o: Outcome)
    requires Sound(b, 0, o)
    ensures Sound(b + x, 0, o.(rest := []))
  {
    hide StartsValid;
    forall i | 0 <= i < |o.starts|
      ensures StartsValid((b + x)[o.starts[i]..])
    {
      ValidLonger(b, x, o.starts[i]);
    }
  }

  lemma ValidLonger(b: seq<bv8>, x: seq<bv8>, k: nat)
    requires k <= |b| && StartsValid(b[k..])
    ensures StartsValid((b + x)[k..])
  {
    assert (b + x)[k..][..SAMPLE] == b[k..][..SAMPLE];
  }

  // ----- what a scan does before its first sample -----------------------------------------

  // How many windows are rejected before the first that is not.
  function Lead(b: seq<bv8>): (k: nat)
    ensures k <= |b|
  {
    if |b| < SAMPLE || StartsValid(b) then 0 else 1 + Lead(b[1..])
  }

  // The limit is reached before the first sample.
  predicate Trips(b: seq<bv8>, warns: nat) {
    warns + Lead(b) > CONSECUTIVE_WARNING_LIMIT
  }

  lemma {:induction false} ScanLead(b: seq<bv8>, at: nat, warns: nat)
    requires warns <= CONSECUTIVE_WARNING_LIMIT
    ensures var k, o := Lead(b), Scan(b, at, warns);
      if Trips(b, warns) then o.failed && o.starts == []
      else if StartsValid(b[k..]) then o == Join([at + k], Scan(b[k + SAMPLE..], at + k + SAMPLE, 0))
      else o == Outcome([], b[k..], warns + k, false)
    decreases |b|
  {
    hide StartsValid;
    if |b| >= SAMPLE && !StartsValid(b) && warns < CONSECUTIVE_WARNING_LIMIT {
      var k := Lead(b[1..]);
      ScanLead(b[1..], at + 1, warns + 1);
      assert b[1..][k..] == b[k + 1..];
      if StartsValid(b[k + 1..]) {
        LongEnough(b[k + 1..]);
        assert b[1..][k + SAMPLE..] == b[k + 1 + SAMPLE..];
      }
    } else if |b| >= SAMPLE && !StartsValid(b) {
    } else {
      assert b[0..] == b;
      if |b| < SAMPLE {
        TooShort(b);
      }
    }
  }

  lemma {:induction false} LeadStops(b: seq<bv8>)
    ensures StartsValid(b[Lead(b)..]) || |b| - Lead(b) < SAMPLE
  {
    hide StartsValid;
    if |b| < SAMPLE || StartsValid(b) {
      assert b[0..] == b;
    } else {
      LeadStops(b[1..]);
      assert b[1..][Lead(b[1..])..] == b[Lead(b)..];
    }
  }

  lemma LongEnough(b: seq<bv8>)
    requires StartsValid(b)
    ensures |b| >= SAMPLE
  {}

  lemma TooShort(b: seq<bv8>)
    requires |b| < SAMPLE
    ensures !StartsValid(b)
  {}

  lemma {:induction false} LeadOfRest(b: seq<bv8>, k: nat)
    requires k <= Lead(b)
    ensures Lead(b[k..]) == Lead(b) - k
    decreases k
  {
    hide StartsValid;
    if k == 0 {
      assert b[0..] == b;
    } else {
      LeadOfRest(b[1..], k - 1);
      assert b[1..][k - 1..] == b[k..];
    }
  }

  // ----- when a cut makes no difference ---------------------------------------------------

  // The same samples of the stream, and the same verdict on it.
  predicate Same(o: Outcome, r: Outcome) {
    o.starts == r.starts && o.failed == r.failed
  }

  // Two scans of the same bytes that have counted differently.
  lemma TwoCounts(b: seq<bv8>, at: nat, w: nat, v: nat)
    requires w <= CONSECUTIVE_WARNING_LIMIT && v <= CONSECUTIVE_WARNING_LIMIT
    ensures var o, r := Scan(b, at, w), Scan(b, at, v);
      (Same(o, r) <==> Trips(b, w) == Trips(b, v)) && (Same(o, r) && !o.failed ==> o.rest == r.rest)
  {
    hide StartsValid, Scan, Trips;
    ScanLead(b, at, w);
    ScanLead(b, at, v);
  }

  // Whether a call that begins with bytes left over finds what an uncut scan would. The call
  // has counted w windows and the uncut scan v. If the bytes left over begin a sample, the
  // count that the call keeps must not matter. If they do not, no sample may start among them,
  // and the call must reach the limit just when the uncut scan does.
  predicate Agrees(leftover: seq<bv8>, input: seq<bv8>, w: nat, v: nat)
    requires |leftover| < SAMPLE <= |input|
  {
    if Rebuilds(leftover, input) then
      Trips(input[SAMPLE - |leftover|..], w) == Trips(input[SAMPLE - |leftover|..], 0)
    else if Trips(leftover + input, v) then Trips(input, w)
    else |leftover| <= Lead(leftover + input) && !Trips(input, w)
  }

  // One call agrees with the uncut scan exactly under that condition.
  lemma OneCall(l: seq<bv8>, x: seq<bv8>, at: nat, w: nat, v: nat)
    requires |l| < SAMPLE <= |x| && |l| <= at && w <= CONSECUTIVE_WARNING_LIMIT && v <= CONSECUTIVE_WARNING_LIMIT
    ensures var o, r := Encode(l, x, at, w), Scan(l + x, at - |l|, v);
      (Same(o, r) <==> Agrees(l, x, w, v)) && (Same(o, r) && !o.failed ==> o.rest == r.rest)
  {
    hide StartsValid, Scan, Trips, Lead;
    var b, need := l + x, SAMPLE - |l|;
    assert b[|l|..] == x;
    if Rebuilds(l, x) {
      assert b[SAMPLE..] == x[need..];
      ScanValid(b, at - |l|, v);
      TwoCounts(x[need..], at + need, w, 0);
      Prefixed(at - |l|, Scan(x[need..], at + need, w), Scan(x[need..], at + need, 0));
    } else {
      ScanLead(b, at - |l|, v);
      ScanLead(x, at, w);
      if !Trips(b, v) && |l| <= Lead(b) {
        SkippedAlike(l, x, at, w, v);
      } else if !Trips(b, v) {
        LeadStops(b);
        assert Scan(b, at - |l|, v).starts[0] < at;
        assert Scan(x, at, w).starts != [] ==> Scan(x, at, w).starts[0] >= at;
      }
    }
  }

  lemma Prefixed(at: nat, o: Outcome, r: Outcome)
    ensures Same(Join([at], o), Join([at], r)) <==> Same(o, r)
  {
    assert ([at] + o.starts)[1..] == o.starts && ([at] + r.starts)[1..] == r.starts;
  }

  // No sample starts among the bytes left over.
  lemma SkippedAlike(l: seq<bv8>, x: seq<bv8>, at: nat, w: nat, v: nat)
    requires |l| < SAMPLE <= |x| && |l| <= at && w <= CONSECUTIVE_WARNING_LIMIT && v <= CONSECUTIVE_WARNING_LIMIT
    requires !Trips(l + x, v) && |l| <= Lead(l + x)
    ensures var o, r := Scan(x, at, w), Scan(l + x, at - |l|, v);
      (Same(o, r) <==> !Trips(x, w)) && (Same(o, r) ==> o.rest == r.rest)
  {
    hide StartsValid, Scan, Trips, Lead;
    var b := l + x;
    assert b[|l|..] == x;
    LeadOfRest(b, |l|);
    var k := Lead(x);
    assert b[|l| + k..] == x[k..];
    ScanLead(b, at - |l|, v);
    ScanLead(x, at, w);
    if StartsValid(x[k..]) {
      LongEnough(x[k..]);
      assert b[|l| + k + SAMPLE..] == x[k + SAMPLE..];
    }
  }

  // A scan can be stopped anywhere and taken up again with what it left over and counted.
  lemma {:induction false} ScanMore(b: seq<bv8>, x: seq<bv8>, at: nat, warns: nat)
    ensures var r, whole := Scan(b, at, warns), Scan(b + x, at, warns);
      if r.failed then Same(whole, r)
      else whole == Join(r.starts, Scan(r.rest + x, at + |b| - |r.rest|, r.warns))
    decreases |b|
  {
    hide StartsValid, Scan, Join;
    if |b| < SAMPLE {
      ShortScan(b, at, warns);
      JoinFirst(Scan(b + x, at, warns));
    } else {
      SameStart(b, x);
      if StartsValid(b) {
        assert (b + x)[SAMPLE..] == b[SAMPLE..] + x;
        ScanMore(b[SAMPLE..], x, at + SAMPLE, 0);
        ScanValid(b, at, warns);
        ScanValid(b + x, at, warns);
        JoinMore(at, Scan(b[SAMPLE..], at + SAMPLE, 0), Scan(b[SAMPLE..] + x, at + SAMPLE, 0));
      } else if warns < CONSECUTIVE_WARNING_LIMIT {
        assert (b + x)[1..] == b[1..] + x;
        ScanMore(b[1..], x, at + 1, warns + 1);
        ScanInvalid(b, at, warns);
        ScanInvalid(b + x, at, warns);
      } else {
        ScanFails(b, at, warns);
        ScanFails(b + x, at, warns);
      }
    }
  }

  lemma JoinMore(at: nat, r: Outcome, whole: Outcome)
    ensures Same(whole, r) ==> Same(Join([at], whole), Join([at], r))
    ensures Join([at], r) == r.(starts := [at] + r.starts)
    ensures forall later :: whole == Join(r.starts, later) ==> Join([at], whole) == Join(Join([at], r).starts, later)
  {
    forall later | whole == Join(r.starts, later)
      ensures Join([at], whole) == Join(Join([at], r).starts, later)
    {
      assert [at] + (r.starts + later.starts) == [at] + r.starts + later.starts;
    }
  }

  lemma SameStart(b: seq<bv8>, x: seq<bv8>)
    requires |b| >= SAMPLE
    ensures StartsValid(b + x) == StartsValid(b)
  {
    assert (b + x)[..SAMPLE] == b[..SAMPLE];
  }

  // ----- when cutting a stream makes no difference ------------------------------------------

  // The calls so far have found what a scan of the uncut stream finds.
  predicate InStep(chunks: seq<seq<bv8>>)
    requires Calls(chunks)
  {
    Same(EncodeAll(chunks), Scan(Concat(chunks), 0, 0))
  }

  // The condition on one more call.
  predicate CutAgrees(before: seq<seq<bv8>>, x: seq<bv8>)
    requires Calls(before) && |x| >= SAMPLE
  {
    var o := EncodeAll(before);
    o.failed || Agrees(o.rest, x, o.warns, Scan(Concat(before), 0, 0).warns)
  }

  predicate SameRest(chunks: seq<seq<bv8>>)
    requires Calls(chunks)
  {
    !EncodeAll(chunks).failed ==> EncodeAll(chunks).rest == Scan(Concat(chunks), 0, 0).rest
  }

  lemma OneMoreCall(before: seq<seq<bv8>>, x: seq<bv8>)
    requires Calls(before) && |x| >= SAMPLE && InStep(before) && SameRest(before)
    ensures Calls(before + [x]) && (InStep(before + [x]) <==> CutAgrees(before, x))
    ensures InStep(before + [x]) ==> SameRest(before + [x])
  {
    hide Scan, Encode, Agrees;
    var b, o := Concat(before), EncodeAll(before);
    var r := Scan(b, 0, 0);
    CallsMore(before, x);
    ScanMore(b, x, 0, 0);
    if !o.failed {
      OneCall(o.rest, x, |b|, o.warns, r.warns);
      SameAfter(o.starts, Encode(o.rest, x, |b|, o.warns), Scan(o.rest + x, |b| - |o.rest|, r.warns));
    }
  }

  lemma SameAfter(starts: seq<nat>, o: Outcome, r: Outcome)
    ensures Same(Join(starts, o), Join(starts, r)) <==> Same(o, r)
  {
    assert (starts + o.starts)[|starts|..] == o.starts && (starts + r.starts)[|starts|..] == r.starts;
  }

  ghost predicate AlwaysInStep(chunks: seq<seq<bv8>>)
    requires Calls(chunks)
  {
    forall n :: 0 <= n <= |chunks| ==> InStep(chunks[..n])
  }

  ghost predicate EveryCutAgrees(chunks: seq<seq<bv8>>)
    requires Calls(chunks)
  {
    forall n :: 0 <= n < |chunks| ==> CutAgrees(chunks[..n], chunks[n])
  }

  // For any bytes and any calls: the calls are in step with a scan of the uncut stream all the
  // way exactly if every cut meets the condition.
  lemma {:induction false} CutsThatAgree(chunks: seq<seq<bv8>>)
    requires Calls(chunks)
    ensures AlwaysInStep(chunks) <==> EveryCutAgrees(chunks)
    ensures AlwaysInStep(chunks) ==> SameRest(chunks)
    decreases |chunks|
  {
    hide InStep, CutAgrees, SameRest;
    if |chunks| == 0 {
      NoCalls();
      assert chunks[..0] == [] == chunks;
    } else {
      var n := |chunks| - 1;
      var before, x := chunks[..n], chunks[n];
      CutsThatAgree(before);
      assert before + [x] == chunks == chunks[..n + 1] && before[..n] == before;
      assert forall m :: 0 <= m <= n ==> before[..m] == chunks[..m];
      assert AlwaysInStep(chunks) <==> AlwaysInStep(before) && InStep(chunks);
      assert EveryCutAgrees(chunks) <==> EveryCutAgrees(before) && CutAgrees(before, x);
      if AlwaysInStep(before) {
        assert InStep(before[..n]);
        OneMoreCall(before, x);
      }
    }
  }

  lemma NoCalls()
    ensures InStep([]) && SameRest([])
  {}

  // ----- a guard that is enough -------------------------------------------------------------

  // Nothing is left over, or what is left over begins a sample and no window has just been rejected.
  predicate Clean(leftover: seq<bv8>, input: seq<bv8>, warns: nat) {
    |leftover| == 0 || (Rebuilds(leftover, input) && warns == 0)
  }

  // Under the guard a call does all that the uncut scan does, its count included.
  lemma CleanCall(l: seq<bv8>, x: seq<bv8>, at: nat, warns: nat)
    requires |l| < SAMPLE <= |x| && |l| <= at && Clean(l, x, warns)
    ensures Encode(l, x, at, warns) == Scan(l + x, at - |l|, warns)
  {
    hide StartsValid;
    if |l| == 0 {
      assert l + x == x;
    } else {
      assert (l + x)[SAMPLE..] == x[SAMPLE - |l|..];
    }
  }

  ghost predicate CleanCuts(chunks: seq<seq<bv8>>)
    requires Calls(chunks)
  {
    forall n :: 0 <= n < |chunks| ==> var o := EncodeAll(chunks[..n]); o.failed || Clean(o.rest, chunks[n], o.warns)
  }

  // With the guard at each cut, any stream, resynchronised or not, is treated as if it were uncut.
  lemma {:induction false} CleanCutsAreHarmless(chunks: seq<seq<bv8>>)
    requires Calls(chunks) && CleanCuts(chunks)
    ensures InStep(chunks) && (!EncodeAll(chunks).failed ==> EncodeAll(chunks) == Scan(Concat(chunks), 0, 0))
    decreases |chunks|
  {
    hide Scan, Encode, Clean, EncodeAll, InStep;
    if |chunks| == 0 {
      assert chunks == [];
      NoCalls();
      EmptyScan();
    } else {
      var n := |chunks| - 1;
      var before, x := chunks[..n], chunks[n];
      assert before + [x] == chunks;
      assert forall m :: 0 <= m <= n ==> before[..m] == chunks[..m];
      CleanCutsAreHarmless(before);
      CleanMore(before, x);
    }
  }

  lemma CleanMore(before: seq<seq<bv8>>, x: seq<bv8>)
    requires Calls(before) && |x| >= SAMPLE && InStep(before)
    requires var o := EncodeAll(before); o.failed || (o == Scan(Concat(before), 0, 0) && Clean(o.rest, x, o.warns))
    ensures Calls(before + [x]) && InStep(before + [x])
    ensures !EncodeAll(before + [x]).failed ==> EncodeAll(before + [x]) == Scan(Concat(before + [x]), 0, 0)
  {
    hide Scan, Encode, Clean;
    var b, o := Concat(before), EncodeAll(before);
    CallsMore(before, x);
    ScanMore(b, x, 0, 0);
    if !o.failed {
      CleanCall(o.rest, x, |b|, o.warns);
    }
  }

  lemma EmptyScan()
    ensures EncodeAll([]) == Scan(Concat([]), 0, 0)
  {}

  // ----- any aligned stream -----------------------------------------------------------------

  ghost predicate Aligned(b: seq<bv8>) {
    forall k: nat :: SAMPLE * k + SAMPLE <= |b| ==> StartsValid(b[SAMPLE * k..])
  }

  // Every eighth position, n of them.
  function Multiples(at: nat, n: nat): (r: seq<nat>)
    ensures |r| == n
  {
    seq(n, i => at + SAMPLE * i)
  }

  lemma {:induction false} AlignedScan(b: seq<bv8>, at: nat)
    requires Aligned(b)
    ensures Scan(b, at, 0) == Outcome(Multiples(at, |b| / SAMPLE), b[SAMPLE * (|b| / SAMPLE)..], 0, false)
    decreases |b|
  {
    hide StartsValid;
    if |b| >= SAMPLE {
      assert StartsValid(b[SAMPLE * 0..]) && b[SAMPLE * 0..] == b;
      var c, n := b[SAMPLE..], |b| / SAMPLE;
      forall k: nat | SAMPLE * k + SAMPLE <= |c|
        ensures StartsValid(c[SAMPLE * k..])
      {
        assert c[SAMPLE * k..] == b[SAMPLE * (k + 1)..];
      }
      AlignedScan(c, at + SAMPLE);
      assert [at] + Multiples(at + SAMPLE, n - 1) == Multiples(at, n);
    }
  }

  lemma AlignedPrefix(b: seq<bv8>, x: seq<bv8>)
    requires Aligned(b + x)
    ensures Aligned(b)
  {
    hide StartsValid;
    forall k: nat | SAMPLE * k + SAMPLE <= |b|
      ensures StartsValid(b[SAMPLE * k..])
    {
      assert (b + x)[SAMPLE * k..] == b[SAMPLE * k..] + x;
      SameStart(b[SAMPLE * k..], x);
    }
  }

  lemma {:induction false} AlignedCutsAreClean(chunks: seq<seq<bv8>>)
    requires Calls(chunks) && Aligned(Concat(chunks))
    ensures CleanCuts(chunks)
    decreases |chunks|
  {
    hide StartsValid, Scan, Encode, Aligned, Clean, CleanCuts, EncodeAll, InStep;
    if |chunks| > 0 {
      var n := |chunks| - 1;
      var before, x := chunks[..n], chunks[n];
      var b := Concat(before);
      assert before + [x] == chunks;
      AlignedPrefix(b, x);
      AlignedCutsAreClean(before);
      CleanCutsAreHarmless(before);
      AlignedScan(b, 0);
      AlignedNext(before, x);
    } else {
      assert CleanCuts(chunks) by { NoCuts(chunks); }
    }
  }

  lemma NoCuts(chunks: seq<seq<bv8>>)
    requires |chunks| == 0
    ensures CleanCuts(chunks)
  {}

  lemma AlignedNext(before: seq<seq<bv8>>, x: seq<bv8>)
    requires Calls(before) && |x| >= SAMPLE && CleanCuts(before) && Aligned(Concat(before) + x)
    requires InStep(before) && (!EncodeAll(before).failed ==> EncodeAll(before) == Scan(Concat(before), 0, 0))
    requires Scan(Concat(before), 0, 0).warns == 0
    requires var b := Concat(before); Scan(b, 0, 0).rest == b[SAMPLE * (|b| / SAMPLE)..]
    ensures CleanCuts(before + [x])
  {
    hide StartsValid, Scan, Encode, Aligned, Clean, EncodeAll;
    var b, o := Concat(before), EncodeAll(before);
    CleanAtMultiple(b, x, |b| / SAMPLE);
    assert o.failed || Clean(o.rest, x, o.warns);
    var chunks := before + [x];
    assert chunks[..|before|] == before;
    assert forall m :: 0 <= m <= |before| ==> chunks[..m] == before[..m];
  }

  lemma CleanAtMultiple(b: seq<bv8>, x: seq<bv8>, k: nat)
    requires Aligned(b + x) && SAMPLE * k <= |b| && |x| >= SAMPLE
    ensures Clean(b[SAMPLE * k..], x, 0)
  {
    hide StartsValid;
    assert (b + x)[SAMPLE * k..] == b[SAMPLE * k..] + x;
  }

  // An aligned stream of valid samples yields every one of them, however it is cut into calls.
  lemma ChunkingIsIrrelevant(chunks: seq<seq<bv8>>)
    requires Calls(chunks) && Aligned(Concat(chunks))
    ensures var b := Concat(chunks);
      EncodeAll(chunks) == Outcome(Multiples(0, |b| / SAMPLE), b[SAMPLE * (|b| / SAMPLE)..], 0, false)
  {
    hide Aligned, CleanCuts, StartsValid, Scan, Encode;
    AlignedCutsAreClean(chunks);
    CleanCutsAreHarmless(chunks);
    AlignedScan(Concat(chunks), 0);
  }

  // ----- cuts that do make a difference -----------------------------------------------------

  lemma StartsValidIs(b: seq<bv8>)
    ensures StartsValid(b) <==> |b| >= SAMPLE && b[1] & 1 == 1 && b[3] & 1 == 0 && b[5] & 1 == 0 && b[7] & 1 == 0
  {}

  lemma TwoCalls(first: seq<bv8>, second: seq<bv8>)
    requires |first| >= SAMPLE && |second| >= SAMPLE
    ensures Calls([first, second]) && Concat([first, second]) == first + second
    ensures var o := Scan(first, 0, 0);
      EncodeAll([first, second]) == if o.failed then o else Join(o.starts, Encode(o.rest, second, |first|, o.warns))
  {
    hide Scan, Encode;
    assert [] + [first] == [first] && [first] + [second] == [first, second];
    CallsMore([], first);
    CallsMore([first], second);
    assert Encode([], first, 0, 0) == Scan(first, 0, 0) by { WithoutLeftover(first); }
    JoinFirst(Scan(first, 0, 0));
    assert [] + first == first;
  }

  lemma WithoutLeftover(x: seq<bv8>)
    requires |x| >= SAMPLE
    ensures Encode([], x, 0, 0) == Scan(x, 0, 0)
  {}

  // A call that brings just one window, and a bad one.
  lemma ScanZeros(b: seq<bv8>, at: nat, warns: nat)
    requires |b| == SAMPLE && b[1] == 0
    ensures Scan(b, at, warns) == if warns >= CONSECUTIVE_WARNING_LIMIT then Outcome([], b, warns + 1, true) else Outcome([], b[1..], warns + 1, false)
  {
    hide StartsValid;
    StartsValidIs(b);
  }

  // The bytes left over are dropped when they do not begin a sample, and with them a sample
  // that starts among them: here the one at position 9 of the stream.
  lemma LeftoverCanBeDropped()
    ensures var first: seq<bv8> := [0, 1, 0, 0, 0, 0, 0, 0, 0, 0, 1];
      var second: seq<bv8> := [0, 0, 0, 0, 0, 0, 0, 0];
      Calls([first, second]) && Scan(Concat([first, second]), 0, 0).starts == [0, 9] && EncodeAll([first, second]).starts == [0]
  {
    hide StartsValid, Scan;
    var first: seq<bv8> := [0, 1, 0, 0, 0, 0, 0, 0, 0, 0, 1];
    var second: seq<bv8> := [0, 0, 0, 0, 0, 0, 0, 0];
    var whole := first + second;
    TwoCalls(first, second);
    ScanZeros(second, |first|, 0);
    StartsValidIs(first);
    StartsValidIs(first[8..]);
    StartsValidIs(first[8..] + second);
    ScanValid(first, 0, 0);
    ShortScan(first[8..], 8, 0);
    StartsValidIs(whole);
    ScanValid(whole, 0, 0);
    StartsValidIs(whole[8..]);
    StartsValidIs(whole[9..]);
    assert whole[8..][1..] == whole[9..] && whole[9..][8..] == whole[17..];
    ScanInvalid(whole[8..], 8, 0);
    ScanValid(whole[9..], 9, 1);
    ShortScan(whole[17..], 17, 0);
  }

  lemma RebuiltCall(l: seq<bv8>, x: seq<bv8>, at: nat, warns: nat)
    requires |l| < SAMPLE <= |x| && |l| <= at && Rebuilds(l, x)
    ensures Encode(l, x, at, warns) == Join([at - |l|], Scan(x[SAMPLE - |l|..], at + SAMPLE - |l|, warns))
  {}

  lemma {:induction false} LeadIs(b: seq<bv8>, k: nat)
    requires k <= |b| && (|b| - k < SAMPLE || StartsValid(b[k..]))
    requires (k > 0 ==> |b| - k + 1 >= SAMPLE) && forall j :: 0 <= j < k ==> !StartsValid(b[j..])
    ensures Lead(b) == k
  {
    hide StartsValid;
    assert b[0..] == b;
    if k > 0 {
      forall j | 0 <= j < k - 1
        ensures !StartsValid(b[1..][j..])
      {
        assert b[1..][j..] == b[j + 1..];
      }
      assert b[1..][k - 1..] == b[k..];
      LeadIs(b[1..], k - 1);
    }
  }

  lemma TenRejected(b: seq<bv8>)
    requires |b| >= 17 && (forall i :: 1 <= i <= 10 ==> b[i] == 0) && (|b| == 17 || StartsValid(b[10..]))
    ensures Lead(b) == 10
  {
    hide StartsValid, Lead;
    forall j | 0 <= j < 10
      ensures !StartsValid(b[j..])
    {
      StartsValidIs(b[j..]);
    }
    LeadIs(b, 10);
  }

  // Ten windows are rejected; the eleventh, made with the bytes left over, is not.
  lemma CountIsKept(first: seq<bv8>, second: seq<bv8>)
    requires |first| == 17 && |second| == 9 && second[2] == 0 && StartsValid(first[10..] + second)
    requires forall i :: 1 <= i <= 10 ==> first[i] == 0
    ensures Calls([first, second]) && !Scan(Concat([first, second]), 0, 0).failed && EncodeAll([first, second]).failed
    ensures Calls([first]) && EncodeAll([first]).rest == first[10..]
  {
    hide StartsValid, Scan, Lead, Encode, EncodeAll;
    var whole, l := first + second, first[10..];
    assert whole[10..] == l + second;
    TwoCalls(first, second);
    TenRejected(first);
    TenRejected(whole);
    TooShort(l);
    ScanLead(first, 0, 0);
    ScanLead(whole, 0, 0);
    assert second[1..] == whole[18..];
    ScanZeros(whole[18..], 18, 10);
    ScanZeros(whole[18..], 18, 0);
    RebuiltCall(l, second, 17, 10);
    OneCallOnly(first);
  }

  // A sample that is made with bytes left over does not end a row of rejected windows, so a call
  // can fail on a stream that never has eleven of them in a row.
  lemma WarningsSurvive()
    ensures var first: seq<bv8> := [0, 0, 0, 0, 0, 0, 0, 0, 0, 0, 0, 1, 0, 0, 0, 0, 0];
      var second: seq<bv8> := [0, 0, 0, 0, 0, 0, 0, 0, 0];
      Calls([first, second]) && !Scan(Concat([first, second]), 0, 0).failed && EncodeAll([first, second]).failed &&
      Rebuilds(EncodeAll([first]).rest, second)
  {
    hide StartsValid, Scan, EncodeAll, Concat;
    var first: seq<bv8> := [0, 0, 0, 0, 0, 0, 0, 0, 0, 0, 0, 1, 0, 0, 0, 0, 0];
    var second: seq<bv8> := [0, 0, 0, 0, 0, 0, 0, 0, 0];
    StartsValidIs(first[10..] + second);
    CountIsKept(first, second);
  }

  lemma ZerosLead(b: seq<bv8>)
    requires |b| >= SAMPLE && forall i :: 0 <= i < |b| ==> b[i] == 0
    ensures Lead(b) == |b| - 7 && !StartsValid(b[|b| - 7..])
  {
    hide StartsValid, Lead;
    forall j | 0 <= j < |b| - 7
      ensures !StartsValid(b[j..])
    {
      StartsValidIs(b[j..]);
    }
    TooShort(b[|b| - 7..]);
    LeadIs(b, |b| - 7);
  }

  // Windows that begin among bytes that are dropped are not counted, so the calls can all succeed
  // on a stream that uncut would fail: fourteen zeros and then eight.
  lemma DroppedIsNotCounted(first: seq<bv8>, second: seq<bv8>)
    requires |first| == 14 && |second| == 8
    requires (forall i :: 0 <= i < |first| ==> first[i] == 0) && forall i :: 0 <= i < |second| ==> second[i] == 0
    ensures Calls([first, second]) && Scan(Concat([first, second]), 0, 0).failed && !EncodeAll([first, second]).failed
  {
    hide StartsValid, Scan, Lead;
    var whole, l := first + second, first[7..];
    TwoCalls(first, second);
    ZerosLead(first);
    ZerosLead(whole);
    ScanLead(first, 0, 0);
    ScanLead(whole, 0, 0);
    StartsValidIs(l + second);
    ScanZeros(second, 14, 7);
  }

  lemma OneCallOnly(x: seq<bv8>)
    requires |x| >= SAMPLE
    ensures Calls([x]) && EncodeAll([x]) == Scan(x, 0, 0)
  {
    hide Scan, Encode;
    assert [] + [x] == [x];
    CallsMore([], x);
    WithoutLeftover(x);
    JoinFirst(Scan(x, 0, 0));
  }

  // ----- the receiver over many calls -------------------------------------------------------

  function Moved(starts: seq<nat>, d: nat): (r: seq<nat>)
    ensures |r| == |starts|
  {
    seq(|starts|, i requires 0 <= i < |starts| => starts[i] + d)
  }

  lemma MovedJoin(starts: seq<nat>, o: Outcome, d: nat)
    ensures Join(Moved(starts, d), o.(starts := Moved(o.starts, d))) == Join(starts, o).(starts := Moved(Join(starts, o).starts, d))
  {
    assert Moved(starts + o.starts, d) == Moved(starts, d) + Moved(o.starts, d);
  }

  // Where the bytes stand does not matter to a scan.
  lemma {:induction false} ScanMoved(b: seq<bv8>, at: nat, d: nat, warns: nat)
    ensures Scan(b, at + d, warns) == Scan(b, at, warns).(starts := Moved(Scan(b, at, warns).starts, d))
    decreases |b|
  {
    hide StartsValid, Join;
    if |b| >= SAMPLE {
      if StartsValid(b) {
        ScanMoved(b[SAMPLE..], at + SAMPLE, d, 0);
        MovedJoin([at], Scan(b[SAMPLE..], at + SAMPLE, 0), d);
        assert Moved([at], d) == [at + d];
      } else if warns < CONSECUTIVE_WARNING_LIMIT {
        ScanMoved(b[1..], at + 1, d, warns + 1);
      }
    }
  }

  lemma EncodeMoved(l: seq<bv8>, x: seq<bv8>, d: nat, warns: nat)
    requires |l| < SAMPLE <= |x|
    ensures Encode(l, x, |l| + d, warns) == Encode(l, x, |l|, warns).(starts := Moved(Encode(l, x, |l|, warns).starts, d))
  {
    hide StartsValid, Join, Scan;
    var need := SAMPLE - |l|;
    if Rebuilds(l, x) {
      ScanMoved(x[need..], |l| + need, d, warns);
      MovedJoin([0], Scan(x[need..], |l| + need, warns), d);
      assert Moved([0], d) == [d];
    } else {
      ScanMoved(x, |l|, d, warns);
    }
  }

  lemma PickedMoved(before: seq<bv8>, l: seq<bv8>, x: seq<bv8>, starts: seq<nat>)
    requires |l| <= |before| && before[|before| - |l|..] == l && InRange(l + x, starts)
    ensures InRange(before + x, Moved(starts, |before| - |l|))
    ensures Picked(before + x, Moved(starts, |before| - |l|)) == Picked(l + x, starts)
  {
    var d := |before| - |l|;
    assert (before + x)[d..] == l + x;
    forall i | 0 <= i < |starts|
      ensures (before + x)[starts[i] + d..starts[i] + d + SAMPLE] == (l + x)[starts[i]..starts[i] + SAMPLE]
    {
      SliceOfSlice(before + x, d, starts[i]);
    }
  }

  lemma SliceOfSlice(b: seq<bv8>, d: nat, k: nat)
    requires d + k + SAMPLE <= |b|
    ensures b[d..][k..k + SAMPLE] == b[k + d..k + d + SAMPLE]
  {}

  lemma PickedLonger(b: seq<bv8>, x: seq<bv8>, starts: seq<nat>)
    requires InRange(b, starts)
    ensures InRange(b + x, starts) && Picked(b + x, starts) == Picked(b, starts)
  {
    forall i | 0 <= i < |starts|
      ensures (b + x)[starts[i]..starts[i] + SAMPLE] == b[starts[i]..starts[i] + SAMPLE]
    {}
  }

  // What one more call adds to the samples found so far.
  lemma PickedByCall(before: seq<seq<bv8>>, x: seq<bv8>)
    requires Calls(before) && |x| >= SAMPLE && !EncodeAll(before).failed && InRange(Concat(before), EncodeAll(before).starts)
    ensures var (b, o) := (Concat(before), EncodeAll(before));
      var p := Encode(o.rest, x, |o.rest|, o.warns);
      Calls(before + [x]) && InRange(o.rest + x, p.starts) && InRange(b + x, EncodeAll(before + [x]).starts) &&
      Picked(b + x, EncodeAll(before + [x]).starts) == Picked(b, o.starts) + Picked(o.rest + x, p.starts)
  {
    hide StartsValid, Scan, Encode, Picked, EncodeAll;
    var b, o := Concat(before), EncodeAll(before);
    var p, d := Encode(o.rest, x, |o.rest|, o.warns), |b| - |o.rest|;
    CallsMore(before, x);
    OnlyValidated(before);
    assert o.rest[|o.rest| - |o.rest|..] == o.rest;
    EncodeSound(o.rest, o.rest, x, o.warns);
    EncodeMoved(o.rest, x, d, o.warns);
    PickedMoved(b, o.rest, x, p.starts);
    PickedLonger(b, x, o.starts);
    PickedJoin(b + x, o.starts, Moved(p.starts, d));
  }

  // Feeds the buffers that the receiver reads to a new source until a call fails. What comes out
  // is what an uncut scan finds as long as every cut meets the condition.
  method ReadAll(source: Source, chunks: seq<seq<bv8>>) returns (out: seq<Sample>, n: nat, failed: bool)
    requires source.Valid() && source.Left() == [] && source.warns == 0 && Calls(chunks)
    modifies source, source.leftover
    ensures n <= |chunks| && (!failed ==> n == |chunks|)
    ensures var b, o := Concat(chunks[..n]), EncodeAll(chunks[..n]);
      failed == o.failed && InRange(b, o.starts) && out == Picked(b, o.starts)
    ensures EveryCutAgrees(chunks[..n]) ==> Same(EncodeAll(chunks[..n]), Scan(Concat(chunks[..n]), 0, 0))
  {
    hide StartsValid, Scan, Encode, Picked, EncodeAll, EveryCutAgrees;
    out, n, failed := [], 0, false;
    NothingYet(chunks);
    while n < |chunks| && !failed
      invariant n <= |chunks| && source.Valid() && source.leftover == old(source.leftover)
      invariant failed == EncodeAll(chunks[..n]).failed
      invariant !failed ==> source.Left() == EncodeAll(chunks[..n]).rest && source.warns == EncodeAll(chunks[..n]).warns
      invariant InRange(Concat(chunks[..n]), EncodeAll(chunks[..n]).starts)
      invariant out == Picked(Concat(chunks[..n]), EncodeAll(chunks[..n]).starts)
    {
      ghost var before, x := chunks[..n], chunks[n];
      assert before + [x] == chunks[..n + 1];
      CallsMore(before, x);
      PickedByCall(before, x);
      EncodeMoved(source.Left(), x, |Concat(before)| - |source.Left()|, source.warns);
      var more;
      more, failed := source.EncodeAr2300(chunks[n]);
      out := out + more;
      n := n + 1;
    }
    CutsThatAgree(chunks[..n]);
    if EveryCutAgrees(chunks[..n]) {
      LastInStep(chunks[..n]);
    }
  }

  lemma NothingYet(chunks: seq<seq<bv8>>)
    ensures Calls(chunks[..0]) && EncodeAll(chunks[..0]) == Outcome([], [], 0, false) && Picked(Concat(chunks[..0]), []) == []
  {}

  lemma LastInStep(chunks: seq<seq<bv8>>)
    requires Calls(chunks) && AlwaysInStep(chunks)
    ensures InStep(chunks)
  {
    hide InStep;
    assert chunks[..|chunks|] == chunks;
  }
}
