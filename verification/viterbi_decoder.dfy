// The soft-decision Viterbi decoder of meteor_viterbi.cc: add-compare-select over two error
// buffers, a ring of decisions, traceback in overlapping rounds, and packed output.
module ViterbiDecoder {
  import opened ViterbiCode
  import opened ViterbiSurvivors
  import BitIo

  const NUM_STATES := 128
  const HIGH_BIT := 64
  const NUM_ITER := 128

  // ----- the tables ---------------------------------------------------------------------

  method MetricSoftDistance(hard: nat, softY0: Byte, softY1: Byte) returns (d: U16)
    requires hard < 4
    ensures d == Distance(hard, softY0, softY1)
  {
    var mag := 255;
    var softX0, softX1 := mag, mag;
    match hard {
      case 0 => {}
      case 1 => { softX0 := -mag; }
      case 2 => { softX1 := -mag; }
      case _ => { softX0, softX1 := -mag, -mag; }
    }
    d := Abs(Signed(softY0) - softX0) + Abs(Signed(softY1) - softX1);
  }

  // One row of dist_table_, indexed by two soft bytes read as a little-endian word.
  predicate DistRow(row: seq<U16>, hard: nat)
    requires hard < 4
  {
    |row| == 0x1_0000 && forall j: nat :: j < 0x1_0000 ==> row[j] == Distance(hard, j % 256, j / 256)
  }

  predicate DistTable(t: seq<seq<U16>>) {
    |t| == 4 && forall hard :: 0 <= hard < 4 ==> DistRow(t[hard], hard)
  }

  method CreateDistRow(hard: nat) returns (row: seq<U16>)
    requires hard < 4
    ensures DistRow(row, hard)
  {
    hide Distance;
    var a := new U16[0x1_0000];
    for j := 0 to 0x1_0000
      invariant forall k: nat :: k < j ==> a[k] == Distance(hard, k % 256, k / 256)
    {
      a[j] := MetricSoftDistance(hard, j % 256, j / 256);
    }
    row := a[..];
  }

  method CreateDistTable() returns (t: seq<seq<U16>>)
    ensures DistTable(t)
  {
    hide DistRow;
    t := [];
    for hard := 0 to 4
      invariant |t| == hard && forall h :: 0 <= h < hard ==> DistRow(t[h], h)
    {
      var row := CreateDistRow(hard);
      t := t + [row];
    }
  }

  predicate CodeTable(t: seq<nat>) {
    |t| == NUM_STATES && forall r :: 0 <= r < NUM_STATES ==> t[r] == Output(r)
  }

  method CreateTable() returns (t: seq<nat>)
    ensures CodeTable(t)
  {
    hide Tap;
    var a := new nat[NUM_STATES](_ => 0);
    for i := 0 to NUM_STATES
      invariant forall r :: 0 <= r < i ==> a[r] == Output(r)
      invariant forall r :: i <= r < NUM_STATES ==> a[r] == 0
    {
      if Tap(VITERBI27_POLYA, i) {
        a[i] := a[i] + 1;
      }
      if Tap(VITERBI27_POLYB, i) {
        a[i] := a[i] + 2;
      }
    }
    t := a[..];
  }

  // Both outputs of a state's two successors, the odd register's in the high bits.
  function PairOutput(p: nat): nat
    requires p < 64
  {
    4 * Output(2 * p + 1) + Output(2 * p)
  }

  lemma PairOutputs(p: nat)
    requires p < 64
    ensures PairOutput(p) == 3 || PairOutput(p) == 6 || PairOutput(p) == 9 || PairOutput(p) == 12
    ensures PairOutput(p) % 4 == Output(2 * p) && PairOutput(p) / 4 == Output(2 * p + 1)
  {
    hide Output;
    NewestFlipsBoth(p);
  }

  // Every state finds its pair of outputs among the four that have been given a key.
  predicate PairLookup(keys: seq<nat>, outputs: seq<nat>) {
    |keys| == 64 && |outputs| == 16 &&
    (forall k :: 0 <= k < 5 ==> outputs[k] < 16) &&
    forall p :: 0 <= p < 64 ==> 1 <= keys[p] < 5 && outputs[keys[p]] == PairOutput(p)
  }

  function Used(k: nat): int {
    if k != 0 then 1 else 0
  }

  // The keys handed out so far: one for each of the four possible pairs at most.
  predicate Keyed(inv: seq<nat>, outputs: seq<nat>, counter: nat) {
    |inv| == 16 && |outputs| == 16 &&
    counter == 1 + Used(inv[3]) + Used(inv[6]) + Used(inv[9]) + Used(inv[12]) &&
    (forall o :: 0 <= o < 16 ==> inv[o] < counter) &&
    (forall o :: 0 <= o < 16 && inv[o] != 0 ==> outputs[inv[o]] == o) &&
    (forall k :: 0 <= k < 16 ==> outputs[k] < 16)
  }

  lemma NewKey(inv: seq<nat>, outputs: seq<nat>, counter: nat, o: nat)
    requires Keyed(inv, outputs, counter) && (o == 3 || o == 6 || o == 9 || o == 12) && inv[o] == 0
    ensures counter <= 4 && Keyed(inv[o := counter], outputs[counter := o], counter + 1)
  {}

  lemma SetAt(a: seq<nat>, b: seq<nat>, i: nat, x: nat)
    requires i < |a| == |b| && b[i] == x && forall k :: 0 <= k < |a| && k != i ==> b[k] == a[k]
    ensures b == a[i := x]
  {}

  method AssignKey(invOutputs: array<nat>, pairOutputs: array<nat>, counter: nat, o: nat) returns (next: nat)
    requires invOutputs != pairOutputs && Keyed(invOutputs[..], pairOutputs[..], counter) && (o == 3 || o == 6 || o == 9 || o == 12)
    modifies invOutputs, pairOutputs
    ensures Keyed(invOutputs[..], pairOutputs[..], next) && next >= counter
    ensures 1 <= invOutputs[o] < next <= pairOutputs.Length && pairOutputs[invOutputs[o]] == o
    ensures forall k :: 0 <= k < counter ==> pairOutputs[k] == old(pairOutputs[k])
  {
    next := counter;
    if invOutputs[o] == 0 {
      ghost var inv, outputs := invOutputs[..], pairOutputs[..];
      NewKey(inv, outputs, counter, o);
      invOutputs[o] := counter;
      pairOutputs[counter] := o;
      next := counter + 1;
      SetAt(inv, invOutputs[..], o, counter);
      SetAt(outputs, pairOutputs[..], counter, o);
    }
    assert invOutputs[..][o] == invOutputs[o] && pairOutputs[..][invOutputs[o]] == pairOutputs[invOutputs[o]];
  }

  method PairLookupCreate(table: seq<nat>) returns (keys: seq<nat>, outputs: seq<nat>)
    requires CodeTable(table)
    ensures PairLookup(keys, outputs)
  {
    hide Output, PairOutput, CodeTable, Keyed;
    var pairKeys := new nat[64](_ => 0);
    var pairOutputs := new nat[16](_ => 0);
    var invOutputs := new nat[16](_ => 0);
    var outputCounter := 1;
    NoKeys(invOutputs[..], pairOutputs[..]);
    for i := 0 to 64
      invariant Keyed(invOutputs[..], pairOutputs[..], outputCounter) && outputCounter <= 16
      invariant forall p :: 0 <= p < i ==> 1 <= pairKeys[p] < outputCounter && pairOutputs[pairKeys[p]] == PairOutput(p)
    {
      PairOutputs(i);
      PairFromTable(table, i);
      var o := table[i * 2 + 1] * 4 + table[i * 2];
      outputCounter := AssignKey(invOutputs, pairOutputs, outputCounter, o);
      pairKeys[i] := invOutputs[o];
    }
    keys, outputs := pairKeys[..], pairOutputs[..];
    KeysFew(invOutputs[..], outputs, outputCounter);
  }

  lemma NoKeys(inv: seq<nat>, outputs: seq<nat>)
    requires |inv| == |outputs| == 16 && forall k :: 0 <= k < 16 ==> inv[k] == outputs[k] == 0
    ensures Keyed(inv, outputs, 1)
  {}

  lemma KeysFew(inv: seq<nat>, outputs: seq<nat>, counter: nat)
    requires Keyed(inv, outputs, counter)
    ensures counter <= 5 && |outputs| == 16 && forall k :: 0 <= k < 5 ==> outputs[k] < 16
  {}

  lemma PairFromTable(table: seq<nat>, i: nat)
    requires CodeTable(table) && i < 64
    ensures |table| == 128 && table[i * 2 + 1] * 4 + table[i * 2] == PairOutput(i)
  {
    hide Output;
  }

  // ----- the decoder --------------------------------------------------------------------

  // The row that holds the column of k steps ago.
  function Back(h: nat, k: nat): nat
    requires h < RING && k <= RING
  {
    if h >= k then h - k else h + RING - k
  }

  function Dec(x: nat): nat {
    if x == 0 then RING - 1 else x - 1
  }

  predicate Skip(d: nat) {
    d == 1 || d == 2 || d == 4 || d == 8 || d == 16 || d == 32 || d == 64
  }

  // Multiples lie a whole skip apart.
  lemma NextMultiple(d: nat, a: nat, t: nat)
    requires Skip(d) && a % d == 0 && t % d == 0
    ensures a < t ==> a + d <= t
    ensures (a + d) % d == 0
  {
    OneMore(d, a);
    var x, y := a / d, t / d;
    if x < y {
      Sum(d, x, 1);
      Sum(d, x + 1, y - x - 1);
    } else {
      Sum(d, y, x - y);
    }
  }

  lemma Sum(d: nat, x: nat, y: nat)
    ensures d * (x + y) == d * x + d * y && d * y >= 0
  {}

  lemma OneMore(d: nat, a: nat)
    requires Skip(d) && a % d == 0
    ensures (a + d) % d == 0
  {
    var x := a / d;
    if d == 1 {
    } else if d == 2 {
      assert a + d == 2 * (x + 1);
    } else if d == 4 {
      assert a + d == 4 * (x + 1);
    } else if d == 8 {
      assert a + d == 8 * (x + 1);
    } else if d == 16 {
      assert a + d == 16 * (x + 1);
    } else if d == 32 {
      assert a + d == 32 * (x + 1);
    } else {
      assert a + d == 64 * (x + 1);
    }
  }

  // Two 16-bit values in one word.
  function Concat(high: nat, low: nat): nat {
    high * 0x1_0000 + low
  }

  function Power2(k: nat): (d: nat)
    ensures d > 0
  {
    if k == 0 then 1 else 2 * Power2(k - 1)
  }

  lemma TailSkip(i: nat)
    requires NUM_FRAME_BITS - 6 <= i < NUM_FRAME_BITS
    ensures Power2(7 - (NUM_FRAME_BITS - i)) == Stride(i + 1) && Skip(Stride(i + 1)) && Stride(i + 1) >= 2
  {
    assert Power2(1) == 2 && Power2(2) == 4 && Power2(3) == 8 && Power2(4) == 16 && Power2(5) == 32 && Power2(6) == 64;
  }

  // The number of full rounds in a frame, and of bytes written.
  const ROUNDS := 77
  const WHOLE_BYTES := 1023

  // No round and no renormalisation falls into the tail.
  lemma QuietTail(columns: nat, rounds: nat, len: nat)
    requires NUM_FRAME_BITS - 12 < columns <= NUM_FRAME_BITS - 6
    requires columns == TRACEBACK_LENGTH * rounds + len && len <= RING
    ensures Phase(columns) != 0 && len != RING
  {}

  class Viterbi {
    const distTable: seq<seq<U16>>
    const table: seq<nat>
    const pairKeys: seq<nat>
    const pairOutputs: seq<nat>
    const distances: array<U16>
    const pairDistances: array<nat>
    const history: array2<bv8>
    const fetched: array<bv8>
    const err0: array<U16>
    const err1: array<U16>
    var histIndex: nat
    var len: nat
    var renormalizeCounter: nat
    var errIndex: nat
    var readErrors: array<U16>
    var writeErrors: array<U16>
    var writer: BitIo.Writer
    // Every column of the frame, and the number of full rounds written out.
    ghost var cols: seq<seq<bool>>
    ghost var rounds: nat
    // The errors after the first six steps, and what every later step did.
    ghost var start: seq<U16>
    ghost var steps: seq<Step>

    ghost predicate Separate() {
      err0 != err1 && distances != err0 && distances != err1 &&
      pairDistances as object != distances && pairDistances as object != err0 && pairDistances as object != err1 &&
      history as object != distances && history as object != err0 && history as object != err1 && history as object != pairDistances &&
      fetched as object != distances && fetched as object != err0 && fetched as object != err1 &&
      fetched as object != pairDistances && fetched as object != history
    }

    ghost predicate Valid()
      reads this`readErrors, this`writeErrors, this`histIndex, this`renormalizeCounter, this`errIndex, this`cols
    {
      Separate() && distances.Length == 4 && pairDistances.Length == 5 && fetched.Length == RING &&
      history.Length0 == RING && history.Length1 == NUM_STATES && err0.Length == NUM_STATES && err1.Length == NUM_STATES &&
      DistTable(distTable) && CodeTable(table) && PairLookup(pairKeys, pairOutputs) &&
      ((readErrors == err0 && writeErrors == err1) || (readErrors == err1 && writeErrors == err0)) &&
      histIndex < RING && renormalizeCounter <= RENORMALIZE_INTERVAL && errIndex < 2 && Columns(cols)
    }

    // The writer's objects are none of the decoder's.
    ghost predicate OwnWriter()
      reads this`writer
    {
      var b := writer.bytes as object;
      writer as object != this && b != distances && b != pairDistances && b != history && b != fetched && b != err0 && b != err1
    }

    constructor ()
      ensures Valid() && fresh(distances) && fresh(pairDistances) && fresh(history) && fresh(fetched) && fresh(err0) && fresh(err1)
    {
      hide DistTable, CodeTable, PairLookup;
      var dist := CreateDistTable();
      var t := CreateTable();
      var keys, outputs := PairLookupCreate(t);
      distTable, table, pairKeys, pairOutputs := dist, t, keys, outputs;
      distances := new U16[4](_ => 0);
      pairDistances := new nat[5](_ => 0);
      history := new bv8[RING, NUM_STATES]((_, _) => 0);
      fetched := new bv8[RING](_ => 0);
      var e0, e1 := new U16[NUM_STATES](_ => 0), new U16[NUM_STATES](_ => 0);
      err0, err1, readErrors, writeErrors := e0, e1, e0, e1;
      histIndex, len, renormalizeCounter, errIndex := 0, 0, 0, 0;
      var buffer := new bv8[0];
      writer := new BitIo.Writer(buffer);
      cols, rounds := [], 0;
    }

    // A row of the ring as a column of decisions.
    ghost function Row(r: nat): (c: seq<bool>)
      requires r < RING && history.Length0 == RING && history.Length1 == NUM_STATES
      reads history
      ensures Column(c)
    {
      seq(64, s requires 0 <= s < 64 reads history => history[r, s] != 0)
    }

    // The ring holds the latest columns.
    ghost predicate Ring()
      requires history.Length0 == RING && history.Length1 == NUM_STATES && histIndex < RING
      reads this`cols, this`histIndex, history
    {
      forall j :: 0 <= j < |cols| && |cols| - j <= RING ==> Row(Back(histIndex, |cols| - j)) == cols[j]
    }

    // ----- one column ---------------------------------------------------------------------

    ghost predicate Loaded(soft: seq<Byte>, i: nat)
      requires distances.Length == 4 && 2 * i + 1 < |soft|
      reads distances
    {
      forall h :: 0 <= h < 4 ==> distances[h] == Distance(h, soft[2 * i], soft[2 * i + 1])
    }

    method LoadDistances(soft: seq<Byte>, i: nat)
      requires Valid() && 2 * i + 1 < |soft|
      modifies distances
      ensures Loaded(soft, i)
    {
      hide Distance, CodeTable, PairLookup;
      var index: nat := soft[2 * i] as int + 256 * (soft[2 * i + 1] as int);
      assert index % 256 == soft[2 * i] && index / 256 == soft[2 * i + 1];
      for j := 0 to 4
        invariant forall h :: 0 <= h < j ==> distances[h] == Distance(h, soft[2 * i], soft[2 * i + 1])
      {
        assert DistRow(distTable[j], j);
        distances[j] := distTable[j][index];
      }
    }

    ghost predicate PairsLoaded()
      requires distances.Length == 4 && pairDistances.Length == 5 && |pairOutputs| == 16 && forall k :: 0 <= k < 5 ==> pairOutputs[k] < 16
      reads distances, pairDistances
    {
      forall k :: 1 <= k < 5 ==> pairDistances[k] == Concat(distances[pairOutputs[k] / 4], distances[pairOutputs[k] % 4])
    }

    method PairLookupFillDistance()
      requires Valid()
      modifies pairDistances
      ensures PairsLoaded()
    {
      hide DistTable, CodeTable;
      for i := 1 to 5
        invariant forall k :: 1 <= k < i ==> pairDistances[k] == Concat(distances[pairOutputs[k] / 4], distances[pairOutputs[k] % 4])
      {
        var c := pairOutputs[i];
        var i0 := c % 4;
        var i1 := c / 4;
        pairDistances[i] := Concat(distances[i1], distances[i0]);
      }
    }

    // The pair of branch metrics out of state p, as the lookup delivers it.
    lemma PairCost(soft: seq<Byte>, i: nat, p: nat)
      requires Valid() && 2 * i + 1 < |soft| && Loaded(soft, i) && PairsLoaded() && p < 64
      ensures 1 <= pairKeys[p] < 5
      ensures pairDistances[pairKeys[p]] % 0x1_0000 == StepCost(soft, i, 2 * p)
      ensures pairDistances[pairKeys[p]] / 0x1_0000 == StepCost(soft, i, 2 * p + 1)
    {
      hide DistTable, CodeTable, Distance, Output, PairOutput;
      PairOutputs(p);
      var k := pairKeys[p];
      assert pairDistances[k] == Concat(distances[pairOutputs[k] / 4], distances[pairOutputs[k] % 4]);
      assert distances[Output(2 * p)] == StepCost(soft, i, 2 * p);
      assert distances[Output(2 * p + 1)] == StepCost(soft, i, 2 * p + 1);
    }

    // The states below d have been selected.
    ghost predicate SelectedBelow(soft: seq<Byte>, i: nat, skip: nat, tail: bool, d: nat)
      requires 2 * i + 1 < |soft| && readErrors.Length == NUM_STATES && writeErrors.Length == NUM_STATES && skip > 0
      requires history.Length0 == RING && history.Length1 == NUM_STATES && histIndex < RING
      reads this`readErrors, this`writeErrors, this`histIndex, readErrors, writeErrors, history
    {
      forall s :: 0 <= s < d && s < 64 && s % skip == 0 ==>
        Selected(readErrors[..], soft, i, s, tail, writeErrors[s], history[histIndex, s] != 0)
    }

    // Writes one selected state.
    method Store(successor: nat, low: U16, high: U16, preferHigh: bool, ghost soft: seq<Byte>, ghost i: nat, ghost skip: nat)
      requires Valid() && successor < 64 && 2 * i + 1 < |soft| && skip > 0
      requires low == Candidate(readErrors[..], soft, i, successor, false) && high == Candidate(readErrors[..], soft, i, successor, true)
      requires SelectedBelow(soft, i, skip, preferHigh, successor)
      modifies writeErrors, history
      ensures SelectedBelow(soft, i, skip, preferHigh, successor + 1)
      ensures forall r :: 0 <= r < RING && r != histIndex ==> Row(r) == old(Row(r))
    {
      hide DistTable, CodeTable, PairLookup, Candidate;
      var high0 := if preferHigh then high <= low else high < low;
      var error: U16 := low;
      var historyMask: bv8 := 0;
      if high0 {
        error := high;
        historyMask := 1;
      }
      ghost var read := readErrors[..];
      writeErrors[successor] := error;
      history[histIndex, successor] := historyMask;
      assert read == readErrors[..];
      forall r | 0 <= r < RING && r != histIndex
        ensures Row(r) == old(Row(r))
      {}
    }

    // Both successors of the states p and p + 32.
    method Butterfly(p: nat, successor: nat, ghost soft: seq<Byte>, ghost i: nat)
      requires Valid() && p < 32 && successor == 2 * p && 2 * i + 1 < |soft| && Loaded(soft, i) && PairsLoaded()
      requires SelectedBelow(soft, i, 1, false, successor)
      modifies writeErrors, history
      ensures SelectedBelow(soft, i, 1, false, successor + 2)
      ensures forall r :: 0 <= r < RING && r != histIndex ==> Row(r) == old(Row(r))
    {
      hide DistTable, CodeTable, Loaded, PairsLoaded, SelectedBelow, StepCost, Selected, PairOutput;
      PairCost(soft, i, p);
      PairCost(soft, i, 32 + p);
      var lowConcatDist := pairDistances[pairKeys[p]];
      var highConcatDist := pairDistances[pairKeys[32 + p]];
      var lowPastError := readErrors[p];
      var highPastError := readErrors[32 + p];
      assert readErrors[..][p] == lowPastError && readErrors[..][32 + p] == highPastError;
      ghost var read := readErrors[..];
      Store(successor, Wrap(lowConcatDist % 0x1_0000 + lowPastError), Wrap(highConcatDist % 0x1_0000 + highPastError), false, soft, i, 1);
      assert readErrors[..] == read;
      Store(successor + 1, Wrap(lowConcatDist / 0x1_0000 + lowPastError), Wrap(highConcatDist / 0x1_0000 + highPastError), false, soft, i, 1);
    }

    // The loops over all successors, four states at a time.
    method InnerColumn(soft: seq<Byte>, i: nat)
      requires Valid() && 2 * i + 1 < |soft|
      modifies distances, pairDistances, writeErrors, history
      ensures SelectedBelow(soft, i, 1, false, 64) && readErrors[..] == old(readErrors[..])
      ensures forall r :: 0 <= r < RING && r != histIndex ==> Row(r) == old(Row(r))
    {
      hide DistTable, CodeTable, Loaded, PairsLoaded, SelectedBelow, PairOutput;
      LoadDistances(soft, i);
      PairLookupFillDistance();
      var low, high, base := 0, HIGH_BIT, 0;
      assert SelectedBelow(soft, i, 1, false, 0) by { NoneSelected(soft, i, 1, false); }
      while high < NUM_ITER
        invariant low == 2 * base && high == low + HIGH_BIT && base <= 32 && base % 4 == 0
        invariant Loaded(soft, i) && PairsLoaded() && SelectedBelow(soft, i, 1, false, low) && readErrors[..] == old(readErrors[..])
        invariant forall r :: 0 <= r < RING && r != histIndex ==> Row(r) == old(Row(r))
      {
        var offset, baseOffset := 0, 0;
        while baseOffset < 4
          invariant offset == 2 * baseOffset && baseOffset <= 4
          invariant Loaded(soft, i) && PairsLoaded() && SelectedBelow(soft, i, 1, false, low + offset) && readErrors[..] == old(readErrors[..])
          invariant forall r :: 0 <= r < RING && r != histIndex ==> Row(r) == old(Row(r))
        {
          Butterfly(base + baseOffset, low + offset, soft, i);
          offset := offset + 2;
          baseOffset := baseOffset + 1;
        }
        low := low + 8;
        high := high + 8;
        base := base + 4;
      }
    }

    lemma NoneSelected(soft: seq<Byte>, i: nat, skip: nat, tail: bool)
      requires Valid() && 2 * i + 1 < |soft| && skip > 0
      ensures SelectedBelow(soft, i, skip, tail, 0)
    {}

    method TailRound(ghost soft: seq<Byte>, ghost i: nat, ghost skip: nat, low: nat, high: nat, base: nat, highBase: nat)
      requires Valid() && 2 * i + 1 < |soft| && skip > 0 && Loaded(soft, i)
      requires low == 2 * base && high == low + HIGH_BIT && low < 64 && highBase == 32 + base
      requires SelectedBelow(soft, i, skip, true, low)
      modifies writeErrors, history
      ensures SelectedBelow(soft, i, skip, true, low + 1)
      ensures forall r :: 0 <= r < RING && r != histIndex ==> Row(r) == old(Row(r))
    {
      hide DistTable, PairLookup, SelectedBelow, Distance, Output, Selected;
      var lowDist: nat := distances[table[low]];
      var highDist: nat := distances[table[high]];
      assert lowDist == StepCost(soft, i, low) && highDist == StepCost(soft, i, high);
      var lowPastError: nat := readErrors[base];
      var highPastError: nat := readErrors[highBase];
      Store(low, Wrap(lowDist + lowPastError), Wrap(highDist + highPastError), true, soft, i, skip);
    }

    // In the tail only every skip-th successor is kept.
    method TailColumn(soft: seq<Byte>, i: nat, skip: nat)
      requires Valid() && 2 * i + 1 < |soft| && Skip(skip) && skip >= 2
      modifies distances, writeErrors, history
      ensures SelectedBelow(soft, i, skip, true, 64) && readErrors[..] == old(readErrors[..])
      ensures forall r :: 0 <= r < RING && r != histIndex ==> Row(r) == old(Row(r))
    {
      hide DistTable, CodeTable, PairLookup, SelectedBelow, Loaded;
      LoadDistances(soft, i);
      var baseSkip := skip / 2;
      var highbase := HIGH_BIT / 2;
      var low, high, base := 0, HIGH_BIT, 0;
      NoneSelected(soft, i, skip, true);
      while high < NUM_ITER
        invariant low == 2 * base && high == low + HIGH_BIT && low <= 64 && low % skip == 0
        invariant Loaded(soft, i) && SelectedBelow(soft, i, skip, true, low) && readErrors[..] == old(readErrors[..])
        invariant forall r :: 0 <= r < RING && r != histIndex ==> Row(r) == old(Row(r))
      {
        TailRound(soft, i, skip, low, high, base, highbase + base);
        SkipAhead(soft, i, skip, low);
        NextMultiple(skip, low, 64);
        low := low + skip;
        high := high + skip;
        base := base + baseSkip;
      }
    }

    lemma SkipAhead(soft: seq<Byte>, i: nat, skip: nat, low: nat)
      requires Valid() && 2 * i + 1 < |soft| && Skip(skip) && low % skip == 0
      requires SelectedBelow(soft, i, skip, true, low + 1)
      ensures SelectedBelow(soft, i, skip, true, low + skip)
    {
      hide Selected, DistTable, CodeTable, PairLookup;
      forall s | 0 <= s < low + skip && s < 64 && s % skip == 0
        ensures s < low + 1
      {
        NextMultiple(skip, low, s);
      }
    }

    // ----- search, renormalisation and traceback ------------------------------------------

    method HistoryBufferSearch(searchEvery: nat) returns (bestpath: nat)
      requires Valid() && Skip(searchEvery)
      ensures bestpath < 64 && Least(writeErrors[..], searchEvery, bestpath)
      ensures forall t :: 0 <= t < bestpath && t % searchEvery == 0 ==> writeErrors[t] > writeErrors[bestpath]
    {
      hide DistTable, CodeTable, PairLookup;
      bestpath := 0;
      var least := 0xFFFF;
      var state := 0;
      while state < NUM_STATES / 2
        invariant state % searchEvery == 0 && bestpath < 64 && bestpath <= state && bestpath % searchEvery == 0 && least <= 0xFFFF
        invariant (least == 0xFFFF && bestpath == 0) || writeErrors[bestpath] == least
        invariant forall t :: 0 <= t < bestpath && t % searchEvery == 0 ==> writeErrors[t] > writeErrors[bestpath]
        invariant forall t :: 0 <= t < 64 && t < state && t % searchEvery == 0 ==> least <= writeErrors[t]
        decreases 64 - state
      {
        if writeErrors[state] < least {
          least := writeErrors[state];
          bestpath := state;
        }
        forall t | 0 <= t < 64 && t < state + searchEvery && t % searchEvery == 0
          ensures t <= state
        {
          NextMultiple(searchEvery, state, t);
        }
        NextMultiple(searchEvery, state, 0);
        state := state + searchEvery;
      }
    }

    method HistoryBufferRenormalize(minRegister: nat)
      requires Valid() && minRegister < 64
      modifies writeErrors
      ensures BroughtDown(old(writeErrors[..]), writeErrors[..], true, minRegister)
    {
      hide DistTable, CodeTable, PairLookup;
      var minDistance := writeErrors[minRegister];
      for i := 0 to NUM_STATES / 2
        invariant forall s :: 0 <= s < i ==> writeErrors[s] == WrapDiff(old(writeErrors[s]), minDistance)
        invariant forall s :: i <= s < 64 ==> writeErrors[s] == old(writeErrors[s])
      {
        writeErrors[i] := WrapDiff(writeErrors[i], minDistance);
      }
    }

    // One step back: the row before index, and the state that bestpath came from there.
    method StepBack(index: nat, bestpath: nat, ghost start: nat, ghost j: nat) returns (next: nat, pathbit: nat, state: nat)
      requires Valid() && Ring() && start < 64 && j < |cols| && j < RING
      requires index == Dec(Back(histIndex, j)) && bestpath == BackState(cols, start, j)
      ensures next == Dec(Back(histIndex, j + 1)) && state == BackState(cols, start, j + 1)
      ensures pathbit == if Trail(cols, start)[|cols| - 1 - j] then HIGH_BIT else 0
    {
      hide DistTable, CodeTable, PairLookup, Trail;
      assert index == Back(histIndex, j + 1);
      TrailAt(cols, start, j);
      assert Row(Back(histIndex, |cols| - (|cols| - 1 - j))) == cols[|cols| - 1 - j];
      assert Row(index)[bestpath] == (history[index, bestpath] != 0);
      var past := history[index, bestpath];
      pathbit := if past != 0 then HIGH_BIT else 0;
      state := (bestpath + pathbit) / 2;
      next := Dec(index);
    }

    // The writer can take count more bits after k skipped columns.
    ghost predicate Writable(minTracebackLength: nat)
      requires Valid()
      reads this, writer, writer.bytes
    {
      OwnWriter() && writer.Valid() && minTracebackLength + 8 <= len <= RING && len <= |cols| &&
      8 * writer.pos + writer.curLen + len - minTracebackLength <= 8 * writer.bytes.Length + 7
    }

    // The decided bits of the trail, newest first, as the list that is handed to the writer.
    ghost predicate Fetched(start: nat, minTracebackLength: nat, k: nat)
      requires Columns(cols) && start < 64 && minTracebackLength + k <= |cols| && k <= fetched.Length
      reads this`cols, fetched
    {
      forall f :: 0 <= f < k ==> (fetched[f] == 0 || fetched[f] == 1) && (fetched[f] != 0 <==> Trail(cols, start)[|cols| - 1 - minTracebackLength - f])
    }

    // The loop over the columns that are too recent to decide.
    method SkipRecent(start: nat, minTracebackLength: nat) returns (index: nat, bestpath: nat)
      requires Valid() && Ring() && start < 64 && minTracebackLength <= |cols| && minTracebackLength <= RING
      ensures index == Dec(Back(histIndex, minTracebackLength)) && bestpath == BackState(cols, start, minTracebackLength)
    {
      hide DistTable, CodeTable, PairLookup, Trail, BackState;
      var pathbit;
      bestpath := start;
      index := Dec(histIndex);
      StartBack(start);
      for j := 0 to minTracebackLength
        invariant index == Dec(Back(histIndex, j)) && bestpath == BackState(cols, start, j)
      {
        index, pathbit, bestpath := StepBack(index, bestpath, start, j);
      }
    }

    // The loop that collects decided bits.
    method Collect(ghost start: nat, minTracebackLength: nat, index0: nat, bestpath0: nat) returns (fetchedIndex: nat)
      requires Valid() && Ring() && start < 64 && minTracebackLength <= len <= RING && len <= |cols|
      requires index0 == Dec(Back(histIndex, minTracebackLength)) && bestpath0 == BackState(cols, start, minTracebackLength)
      modifies fetched
      ensures fetchedIndex == len - minTracebackLength && Fetched(start, minTracebackLength, fetchedIndex)
    {
      hide DistTable, CodeTable, PairLookup, Trail, BackState;
      var index, bestpath, pathbit := index0, bestpath0, 0;
      fetchedIndex := 0;
      for j := minTracebackLength to len
        invariant index == Dec(Back(histIndex, j)) && bestpath == BackState(cols, start, j)
        invariant fetchedIndex == j - minTracebackLength && Fetched(start, minTracebackLength, fetchedIndex)
        invariant Ring()
      {
        index, pathbit, bestpath := StepBack(index, bestpath, start, j);
        fetched[fetchedIndex] := if pathbit != 0 then 1 else 0;
        fetchedIndex := fetchedIndex + 1;
      }
    }

    method HistoryBufferTraceback(start: nat, minTracebackLength: nat)
      requires Valid() && Ring() && start < 64 && Writable(minTracebackLength)
      modifies this`len, fetched, writer, writer.bytes
      ensures len == minTracebackLength && writer.Valid() && OwnWriter()
      ensures writer.Stream() == old(writer.Stream()) + Trail(cols, start)[|cols| - old(len)..|cols| - minTracebackLength]
      ensures 8 * writer.pos + writer.curLen == old(8 * writer.pos + writer.curLen) + old(len) - minTracebackLength
    {
      hide DistTable, CodeTable, PairLookup, Trail, BackState;
      var index, bestpath := SkipRecent(start, minTracebackLength);
      var fetchedIndex := Collect(start, minTracebackLength, index, bestpath);
      WriteFetched(start, minTracebackLength, fetchedIndex);
      len := len - fetchedIndex;
    }

    lemma StartBack(start: nat)
      requires Valid() && start < 64
      ensures BackState(cols, start, 0) == start && Back(histIndex, 0) == histIndex
    {}

    method WriteFetched(ghost start: nat, ghost minTracebackLength: nat, fetchedIndex: nat)
      requires Valid() && start < 64 && Writable(minTracebackLength) && fetchedIndex == len - minTracebackLength
      requires Fetched(start, minTracebackLength, fetchedIndex)
      modifies writer, writer.bytes
      ensures writer.Valid() && OwnWriter()
      ensures writer.Stream() == old(writer.Stream()) + Trail(cols, start)[|cols| - len..|cols| - minTracebackLength]
      ensures 8 * writer.pos + writer.curLen == old(8 * writer.pos + writer.curLen) + fetchedIndex
    {
      hide DistTable, CodeTable, PairLookup, Trail, BitIo.Bits, BitIo.Pack, BitIo.ShiftedOnce;
      ghost var r := BitIo.Reverse(BitIo.AsBools(fetched[..fetchedIndex]));
      ghost var more := Trail(cols, start)[|cols| - len..|cols| - minTracebackLength];
      assert r == more;
      writer.WriteBitlistReversed(fetched, fetchedIndex);
      writer.StreamLength();
    }

    method ErrorBufferSwap()
      requires Valid()
      modifies this`readErrors, this`writeErrors, this`errIndex
      ensures Valid()
      ensures readErrors == if old(errIndex) == 0 then err0 else err1
      ensures errIndex == 1 - old(errIndex) && writeErrors == if errIndex == 0 then err0 else err1
    {
      readErrors := if errIndex == 0 then err0 else err1;
      errIndex := (errIndex + 1) % 2;
      writeErrors := if errIndex == 0 then err0 else err1;
    }

    // How many columns there are, how many are undecided, how many bits are out.
    ghost predicate Counts()
      requires Valid()
      reads this, writer, writer.bytes
    {
      OwnWriter() && writer.Valid() && 8 * writer.pos + writer.curLen == TRACEBACK_LENGTH * rounds &&
      |cols| == TRACEBACK_LENGTH * rounds + len && len < RING && (rounds > 0 ==> len >= MIN_TRACEBACK) &&
      |cols| <= NUM_FRAME_BITS - 6 && renormalizeCounter == Phase(|cols|) &&
      8 * writer.bytes.Length + 7 >= NUM_FRAME_BITS - 6
    }

    // The ring without the row that is due to be overwritten.
    ghost predicate RingTail()
      requires history.Length0 == RING && history.Length1 == NUM_STATES && histIndex < RING
      reads this`cols, this`histIndex, history
    {
      forall j :: 0 <= j < |cols| && |cols| - j < RING ==> Row(Back(histIndex, |cols| - j)) == cols[j]
    }

    method Advance()
      requires Valid() && RingTail() && len < RING && renormalizeCounter == Phase(|cols|)
      modifies this`histIndex, this`len, this`renormalizeCounter, this`cols
      ensures Valid() && Ring() && cols == old(cols) + [old(Row(histIndex))]
      ensures len == old(len) + 1 && renormalizeCounter == old(renormalizeCounter) + 1
      ensures if renormalizeCounter == RENORMALIZE_INTERVAL then Due() else !Due() && renormalizeCounter == Phase(|cols|)
    {
      hide DistTable, CodeTable, PairLookup, Row;
      cols := cols + [Row(histIndex)];
      histIndex := histIndex + 1;
      if histIndex == MIN_TRACEBACK + TRACEBACK_LENGTH {
        histIndex := 0;
      }
      renormalizeCounter := renormalizeCounter + 1;
      len := len + 1;
    }

    ghost predicate Due()
      reads this`cols
    {
      Phase(|cols|) == 0
    }

    // A full round: write out all but the latest columns.
    method WriteRound(bestpath: nat)
      requires Valid() && Ring() && bestpath < 64 && OwnWriter() && writer.Valid()
      requires 8 * writer.pos + writer.curLen == TRACEBACK_LENGTH * rounds && |cols| == TRACEBACK_LENGTH * rounds + len && len == RING
      requires |cols| <= NUM_FRAME_BITS - 6 && renormalizeCounter == Phase(|cols|)
      requires 8 * writer.bytes.Length + 7 >= NUM_FRAME_BITS - 6
      modifies this`len, this`rounds, fetched, writer, writer.bytes
      ensures Valid() && Ring() && Counts() && rounds == old(rounds) + 1
      ensures writer.Stream() == old(writer.Stream()) + Trail(cols, bestpath)[|cols| - RING..|cols| - MIN_TRACEBACK]
    {
      hide DistTable, CodeTable, PairLookup, Trail, Row, BitIo.Bits, BitIo.Pack, BitIo.ShiftedOnce;
      HistoryBufferTraceback(bestpath, MIN_TRACEBACK);
      rounds := rounds + 1;
    }

    method HistoryBufferProcessSkip(skip: nat) returns (ghost best: nat)
      requires Valid() && RingTail() && Counts() && |cols| < NUM_FRAME_BITS - 6 && Skip(skip)
      modifies this`histIndex, this`len, this`renormalizeCounter, this`cols, this`rounds, writeErrors, fetched, writer, writer.bytes
      ensures Valid() && Ring() && Counts() && cols == old(cols) + [old(Row(histIndex))] && best < 64
      ensures Due() || old(len) + 1 == RING ==> Least(old(writeErrors[..]), skip, best)
      ensures BroughtDown(old(writeErrors[..]), writeErrors[..], Due(), best)
      ensures rounds == if old(len) + 1 == RING then old(rounds) + 1 else old(rounds)
      ensures writer.Stream() == if old(len) + 1 == RING then old(writer.Stream()) + Trail(cols, best)[|cols| - RING..|cols| - MIN_TRACEBACK] else old(writer.Stream())
    {
      hide DistTable, CodeTable, PairLookup, Trail, Row, Least, BroughtDown, BitIo.Bits, BitIo.Pack, BitIo.ShiftedOnce, Ring, RingTail, Phase;
      best := 0;
      Advance();
      NothingDue(writeErrors[..], best);
      if renormalizeCounter == RENORMALIZE_INTERVAL {
        var bestpath := SearchAndRenormalize(skip);
        best := bestpath;
        if len == MIN_TRACEBACK + TRACEBACK_LENGTH {
          WriteRound(bestpath);
        }
      } else if len == MIN_TRACEBACK + TRACEBACK_LENGTH {
        var bestpath := HistoryBufferSearch(skip);
        best := bestpath;
        NothingDue(writeErrors[..], best);
        WriteRound(bestpath);
      }
    }

    method SearchAndRenormalize(skip: nat) returns (bestpath: nat)
      requires Valid() && Skip(skip)
      modifies this`renormalizeCounter, writeErrors
      ensures Valid() && renormalizeCounter == 0 && bestpath < 64
      ensures Least(old(writeErrors[..]), skip, bestpath)
      ensures BroughtDown(old(writeErrors[..]), writeErrors[..], true, bestpath)
    {
      hide DistTable, CodeTable, PairLookup, Least, BroughtDown;
      renormalizeCounter := 0;
      bestpath := HistoryBufferSearch(skip);
      HistoryBufferRenormalize(bestpath);
    }

    lemma NothingDue(errs: seq<U16>, best: nat)
      requires |errs| >= 64 && best < 64
      ensures BroughtDown(errs, errs, false, best)
    {}

    // ----- whole frames -------------------------------------------------------------------

    ghost predicate Swapped()
      reads this`readErrors, this`writeErrors, this`errIndex
    {
      writeErrors == (if errIndex == 0 then err0 else err1) && readErrors == if errIndex == 0 then err1 else err0
    }

    // The state after n steps.
    ghost predicate Running(soft: seq<Byte>, n: nat)
      reads this, readErrors, history, writer, writer.bytes
    {
      Valid() && Ring() && Counts() && Swapped() && n == |cols| + 6 && n <= NUM_FRAME_BITS && 2 * n <= |soft| &&
      Meaning(readErrors[..], cols, writer.Stream(), rounds, soft) && Recorded(readErrors[..], soft)
    }

    // The recorded steps are a run that has led to the given errors.
    ghost predicate Recorded(errs: seq<U16>, soft: seq<Byte>)
      reads this`start, this`steps, this`cols
    {
      IsRun(start, steps, soft) && Decisions(steps) == cols && ErrsAfter(start, steps) == errs
    }

    ghost method Record(errs: seq<U16>, t: Step, soft: seq<Byte>)
      requires IsRun(start, steps, soft) && ErrsAfter(start, steps) == errs && cols == Decisions(steps) + [t.column]
      requires |steps| + 7 <= NUM_FRAME_BITS && 2 * |steps| + 14 <= |soft|
      requires |errs| >= 64 && |t.written| >= 64 && |t.errs| >= 64 && Column(t.column) && t.best < 64
      requires RowSelected(errs, t.written, t.column, soft, |steps| + 7, |steps| + 7 > NUM_FRAME_BITS - 6)
      requires Phase(|steps| + 1) == 0 ==> |steps| + 7 <= NUM_FRAME_BITS - 6 && Least(t.written, 1, t.best)
      requires BroughtDown(t.written, t.errs, Phase(|steps| + 1) == 0, t.best)
      modifies this`steps
      ensures Recorded(t.errs, soft)
    {
      hide StepFrom, IsRun, Decisions, RowSelected, BroughtDown, Least, Phase;
      MakeStep(errs, t, soft, |steps| + 7);
      RunGrows(start, steps, t, soft);
      steps := steps + [t];
    }

    lemma RowIsSelected(soft: seq<Byte>, i: nat, skip: nat, tail: bool)
      requires Valid() && skip > 0 && 1 <= i + 1 <= NUM_FRAME_BITS && 2 * i + 1 < |soft| && SelectedBelow(soft, i, skip, tail, 64) && skip == Stride(i + 1)
      ensures RowSelected(readErrors[..], writeErrors[..], Row(histIndex), soft, i + 1, tail)
    {
      hide DistTable, CodeTable, PairLookup, Selected, Stride;
    }

    twostate lemma RowsKept()
      requires old(Valid() && Ring()) && Valid() && cols == old(cols) && histIndex == old(histIndex)
      requires forall r :: 0 <= r < RING && r != histIndex ==> Row(r) == old(Row(r))
      ensures RingTail()
    {
      hide DistTable, CodeTable, PairLookup, Row;
    }

    // The column of a step, before it joins the history.
    method InnerWrite(soft: seq<Byte>, i: nat)
      requires Valid() && Ring() && i == |cols| + 6 && i < NUM_FRAME_BITS - 6 && 2 * i + 1 < |soft|
      modifies distances, pairDistances, history, writeErrors
      ensures Valid() && RingTail() && readErrors[..] == old(readErrors[..])
      ensures RowSelected(readErrors[..], writeErrors[..], Row(histIndex), soft, i + 1, false)
    {
      hide DistTable, CodeTable, PairLookup, Row, Ring, RingTail, SelectedBelow, RowSelected, BitIo.Bits, BitIo.Pack, BitIo.ShiftedOnce;
      InnerColumn(soft, i);
      RowIsSelected(soft, i, 1, false);
      RowsKept();
    }

    // All of a step but the record of it and the exchange of the buffers.
    method InnerBody(soft: seq<Byte>, i: nat) returns (ghost t: Step)
      requires Valid() && Ring() && Counts() && Swapped() && i == |cols| + 6 && i < NUM_FRAME_BITS - 6 && 2 * i + 1 < |soft|
      requires Meaning(readErrors[..], cols, writer.Stream(), rounds, soft)
      modifies this`histIndex, this`len, this`renormalizeCounter, this`cols, this`rounds, distances, pairDistances, history, fetched, writeErrors, writer, writer.bytes
      ensures Valid() && Ring() && Counts() && Swapped() && writer == old(writer)
      ensures readErrors == old(readErrors) && readErrors[..] == old(readErrors[..]) && cols == old(cols) + [t.column]
      ensures t.errs == writeErrors[..] && |t.written| >= 64 && Column(t.column) && t.best < 64
      ensures RowSelected(readErrors[..], t.written, t.column, soft, i + 1, false) && BroughtDown(t.written, t.errs, Phase(|cols|) == 0, t.best)
      ensures Meaning(t.errs, cols, writer.Stream(), rounds, soft)
      ensures Phase(|cols|) == 0 ==> Least(t.written, 1, t.best)
    {
      hide DistTable, CodeTable, PairLookup, Row, Ring, RingTail, Meaning, SelectedBelow, RowSelected, Least, BroughtDown, Trail, Phase, IsRun, Decisions, StepFrom, BitIo.Bits, BitIo.Pack, BitIo.ShiftedOnce;
      ghost var errs, cols0, bits, k := readErrors[..], cols, writer.Stream(), rounds;
      writer.StreamLength();
      InnerWrite(soft, i);
      ghost var written, c := writeErrors[..], Row(histIndex);
      ghost var best := HistoryBufferProcessSkip(1);
      t := Step(written, c, best, writeErrors[..]);
      ColumnMeaning(errs, written, writeErrors[..], cols0, c, best, bits, k, soft);
    }

    method InnerStep(soft: seq<Byte>, i: nat)
      requires Running(soft, i) && i < NUM_FRAME_BITS - 6 && 2 * i + 1 < |soft|
      modifies this, distances, pairDistances, history, fetched, err0, err1, writer, writer.bytes
      ensures Running(soft, i + 1) && writer == old(writer)
    {
      hide DistTable, CodeTable, PairLookup, Row, Ring, RingTail, Meaning, SelectedBelow, RowSelected, Least, BroughtDown, Trail, Phase, IsRun, Decisions, StepFrom, BitIo.Bits, BitIo.Pack, BitIo.ShiftedOnce;
      ghost var t := InnerBody(soft, i);
      Record(readErrors[..], t, soft);
      ErrorBufferSwap();
    }

    method TailWrite(soft: seq<Byte>, i: nat, skip: nat)
      requires Valid() && Ring() && i == |cols| + 6 && NUM_FRAME_BITS - 6 <= i < NUM_FRAME_BITS && 2 * i + 1 < |soft|
      requires Skip(skip) && skip >= 2 && skip == Stride(i + 1)
      modifies distances, history, writeErrors
      ensures Valid() && RingTail() && readErrors[..] == old(readErrors[..])
      ensures RowSelected(readErrors[..], writeErrors[..], Row(histIndex), soft, i + 1, true)
    {
      hide DistTable, CodeTable, PairLookup, Row, Ring, RingTail, SelectedBelow, RowSelected, Stride, BitIo.Bits, BitIo.Pack, BitIo.ShiftedOnce;
      TailColumn(soft, i, skip);
      RowIsSelected(soft, i, skip, true);
      RowsKept();
    }

    method TailBody(soft: seq<Byte>, i: nat) returns (ghost t: Step)
      requires Valid() && Ring() && Counts() && Swapped() && i == |cols| + 6 && NUM_FRAME_BITS - 6 <= i < NUM_FRAME_BITS && 2 * i + 1 < |soft|
      requires Meaning(readErrors[..], cols, writer.Stream(), rounds, soft)
      modifies this`histIndex, this`len, this`renormalizeCounter, this`cols, this`rounds, distances, history, fetched, writeErrors, writer, writer.bytes
      ensures Valid() && Ring() && Counts() && Swapped() && writer == old(writer)
      ensures readErrors == old(readErrors) && readErrors[..] == old(readErrors[..]) && cols == old(cols) + [t.column]
      ensures t.errs == writeErrors[..] && |t.written| >= 64 && Column(t.column) && t.best < 64
      ensures RowSelected(readErrors[..], t.written, t.column, soft, i + 1, true) && BroughtDown(t.written, t.errs, Phase(|cols|) == 0, t.best)
      ensures Meaning(t.errs, cols, writer.Stream(), rounds, soft)
      ensures Phase(|cols|) != 0
    {
      hide DistTable, CodeTable, PairLookup, Row, Ring, RingTail, Meaning, SelectedBelow, RowSelected, Least, BroughtDown, Trail, Phase, Stride, Power2, IsRun, Decisions, StepFrom, BitIo.Bits, BitIo.Pack, BitIo.ShiftedOnce;
      ghost var errs, cols0, bits, k := readErrors[..], cols, writer.Stream(), rounds;
      TailSkip(i);
      QuietTail(|cols| + 1, rounds, len + 1);
      var skip := Power2(7 - (NUM_FRAME_BITS - i));
      TailWrite(soft, i, skip);
      ghost var written, c := writeErrors[..], Row(histIndex);
      ghost var best := HistoryBufferProcessSkip(skip);
      t := Step(written, c, best, writeErrors[..]);
      PlainColumn(errs, written, writeErrors[..], cols0, c, best, bits, k, soft, true);
    }

    method TailStep(soft: seq<Byte>, i: nat)
      requires Running(soft, i) && NUM_FRAME_BITS - 6 <= i < NUM_FRAME_BITS && 2 * i + 1 < |soft|
      modifies this, distances, pairDistances, history, fetched, err0, err1, writer, writer.bytes
      ensures Running(soft, i + 1) && writer == old(writer)
    {
      hide DistTable, CodeTable, PairLookup, Row, Ring, RingTail, Meaning, SelectedBelow, RowSelected, Least, BroughtDown, Trail, Phase, Stride, Power2, IsRun, Decisions, StepFrom, BitIo.Bits, BitIo.Pack, BitIo.ShiftedOnce;
      ghost var t := TailBody(soft, i);
      Record(readErrors[..], t, soft);
      ErrorBufferSwap();
    }

    // The first six steps have one way into each state and keep no decisions.
    method EarlyColumn(soft: seq<Byte>, i: nat)
      requires Valid() && i < 6 && 2 * i + 1 < |soft|
      modifies writeErrors
      ensures forall s :: 0 <= s < LiveCount(i + 1) ==> writeErrors[s] == Wrap(StepCost(soft, i, s) + readErrors[s / 2])
    {
      hide PairLookup, Distance, Output;
      for j := 0 to LiveCount(i + 1)
        invariant forall s :: 0 <= s < j ==> writeErrors[s] == Wrap(StepCost(soft, i, s) + readErrors[s / 2])
      {
        var index: nat := soft[2 * i] as int + 256 * (soft[2 * i + 1] as int);
        assert index % 256 == soft[2 * i] && index / 256 == soft[2 * i + 1];
        var hard := table[j];
        assert DistRow(distTable[hard], hard);
        var dist: nat := distTable[hard][index];
        var past: nat := readErrors[j / 2];
        assert dist == StepCost(soft, i, j);
        writeErrors[j] := Wrap(dist + past);
      }
    }

    // After n early steps; the buffers are swapped once they have changed hands.
    ghost predicate Early(soft: seq<Byte>, n: nat)
      reads this, err0, err1, writer, writer.bytes
    {
      Valid() && OwnWriter() && writer.Valid() && n <= 6 && |soft| >= 12 && cols == [] && rounds == 0 && len == 0 && renormalizeCounter == 0 &&
      writer.pos == 0 && writer.curLen == 0 && writer.Stream() == [] &&
      (if n == 0 then errIndex == 0 && readErrors == err0 && writeErrors == err1 && forall s :: 0 <= s < 64 ==> err0[s] == 0
       else Swapped() && forall s :: 0 <= s < LiveCount(n) ==> readErrors[s] == Opt(soft, n, s))
    }

    lemma EarlyOpt(soft: seq<Byte>, i: nat, s: nat, error: U16)
      requires 1 <= i < 6 && |soft| >= 12 && s < LiveCount(i + 1) && error == Opt(soft, i, s / 2)
      ensures Wrap(StepCost(soft, i, s) + error) == Opt(soft, i + 1, s)
    {
      hide StepCost;
      OptSmall(soft, i, s / 2);
    }

    method EarlyStep(soft: seq<Byte>, i: nat)
      requires Early(soft, i) && i < 6
      modifies this`readErrors, this`writeErrors, this`errIndex, err0, err1
      ensures Early(soft, i + 1) && histIndex == old(histIndex)
    {
      hide DistTable, CodeTable, PairLookup, StepCost, Opt, Wrap, BitIo.Bits, BitIo.Pack, BitIo.ShiftedOnce;
      EarlyColumn(soft, i);
      if i > 0 {
        forall s | 0 <= s < LiveCount(i + 1)
          ensures writeErrors[s] == Opt(soft, i + 1, s)
        {
          EarlyOpt(soft, i, s, readErrors[s / 2]);
        }
      } else {
        FirstIsFree(soft);
      }
      ErrorBufferSwap();
    }

    lemma FirstIsFree(soft: seq<Byte>)
      requires |soft| >= 12
      ensures forall s :: 0 <= s < LiveCount(1) ==> Opt(soft, 1, s) == 0
    {}

    method VitInner(soft: seq<Byte>)
      requires Early(soft, 0) && histIndex == 0 && |soft| >= 2 * NUM_FRAME_BITS && 8 * writer.bytes.Length + 7 >= NUM_FRAME_BITS - 6
      modifies this, distances, pairDistances, history, fetched, err0, err1, writer, writer.bytes
      ensures Running(soft, NUM_FRAME_BITS - 6) && writer == old(writer)
    {
      hide Early, Running;
      for i := 0 to 6
        invariant Early(soft, i) && histIndex == 0 && writer == old(writer)
      {
        EarlyStep(soft, i);
      }
      BeginRun(soft);
      for i := 6 to NUM_FRAME_BITS - 6
        invariant Running(soft, i) && writer == old(writer)
      {
        InnerStep(soft, i);
      }
    }

    ghost method BeginRun(soft: seq<Byte>)
      requires Early(soft, 6) && histIndex == 0 && |soft| >= 2 * NUM_FRAME_BITS && 8 * writer.bytes.Length + 7 >= NUM_FRAME_BITS - 6
      modifies this`start, this`steps
      ensures Running(soft, 6)
    {
      hide DistTable, CodeTable, PairLookup, Opt, Ready, BitIo.Bits, BitIo.Pack, BitIo.ShiftedOnce;
      StartReady(readErrors[..], soft);
      start, steps := readErrors[..], [];
    }

    method VitTail(soft: seq<Byte>)
      requires Running(soft, NUM_FRAME_BITS - 6) && |soft| >= 2 * NUM_FRAME_BITS
      modifies this, distances, pairDistances, history, fetched, err0, err1, writer, writer.bytes
      ensures Running(soft, NUM_FRAME_BITS) && writer == old(writer)
    {
      hide Running;
      for i := NUM_FRAME_BITS - 6 to NUM_FRAME_BITS
        invariant Running(soft, i) && writer == old(writer)
      {
        TailStep(soft, i);
      }
    }

    // Fills the two error buffers with zeros.
    method ClearErrors()
      requires Valid()
      modifies err0, err1
      ensures forall s :: 0 <= s < 64 ==> err0[s] == 0 && err1[s] == 0
    {
      hide DistTable, CodeTable, PairLookup;
      for s := 0 to NUM_STATES
        invariant forall r :: 0 <= r < s ==> err0[r] == 0 && err1[r] == 0
      {
        err0[s] := 0;
        err1[s] := 0;
      }
    }

    method Start(soft: seq<Byte>, decoded: array<bv8>)
      requires Valid() && |soft| >= 12
      requires decoded != fetched && decoded as object != distances && decoded as object != pairDistances && decoded as object != history
      requires decoded as object != err0 && decoded as object != err1
      modifies this, err0, err1
      ensures Early(soft, 0) && histIndex == 0 && fresh(writer) && writer.bytes == decoded
    {
      hide DistTable, CodeTable, PairLookup, Opt, BitIo.Bits, BitIo.Pack, BitIo.ShiftedOnce;
      ClearErrors();
      len, histIndex, renormalizeCounter, errIndex := 0, 0, 0, 0;
      cols, rounds := [], 0;
      readErrors, writeErrors := err0, err1;
      var w := new BitIo.Writer(decoded);
      writer := w;
    }

    // The last traceback, from state zero over all that is undecided.
    method Finish(ghost soft: seq<Byte>) returns (ghost bits: seq<bool>)
      requires |soft| >= 2 * NUM_FRAME_BITS && Running(soft, NUM_FRAME_BITS)
      modifies this`len, fetched, writer, writer.bytes
      ensures |bits| == NUM_FRAME_BITS - 6 && writer.bytes.Length >= WHOLE_BYTES && BitIo.Bits(writer.bytes[..WHOLE_BYTES]) == bits[..8 * WHOLE_BYTES]
      ensures NoWrap(soft, |bits| + 6) ==> Decided(soft, bits, ROUNDS) && EndOnBestPath(soft, bits, TRACEBACK_LENGTH * ROUNDS)
    {
      hide DistTable, CodeTable, PairLookup, Decided, EndOnBestPath, NoWrap, Exact, SurvivorsBest, Row, Ring, Trail, Base, BitIo.Bits, BitIo.Pack, BitIo.ShiftedOnce;
      ghost var before, frame := writer.Stream(), cols;
      writer.StreamLength();
      HistoryBufferTraceback(0, 0);
      bits := writer.Stream();
      writer.StreamLength();
      assert bits == before + Trail(frame, 0)[|before|..];
      FirstBytes(writer.bytes[..writer.pos], bits);
      if NoWrap(soft, |bits| + 6) {
        EndDecided(soft, before, ROUNDS, frame);
      }
    }

    lemma FirstBytes(bytes: seq<bv8>, bits: seq<bool>)
      requires |BitIo.Bits(bytes)| <= |bits| && bits[..|BitIo.Bits(bytes)|] == BitIo.Bits(bytes)
      ensures bits[..8 * |bytes|] == BitIo.Bits(bytes)
    {}

    // Decodes a frame. All but the last six bits are decided, each once and in order; the
    // whole bytes of them are in decoded. If no 16-bit sum wraps, every group of bits that is
    // written together lies on a path of least cost at that time.
    method VitConvDecode(soft: seq<Byte>, decoded: array<bv8>) returns (ghost bits: seq<bool>)
      requires Valid() && |soft| >= 2 * NUM_FRAME_BITS && decoded.Length >= WHOLE_BYTES
      requires decoded != fetched && decoded as object != distances && decoded as object != pairDistances && decoded as object != history
      requires decoded as object != err0 && decoded as object != err1
      modifies this, distances, pairDistances, history, fetched, err0, err1, decoded
      ensures Valid()
      ensures |bits| == NUM_FRAME_BITS - 6 && BitIo.Bits(decoded[..WHOLE_BYTES]) == bits[..8 * WHOLE_BYTES]
      ensures NoWrap(soft, |bits| + 6) ==> Decided(soft, bits, ROUNDS) && EndOnBestPath(soft, bits, TRACEBACK_LENGTH * ROUNDS)
      ensures IsRun(start, steps, soft) && |steps| + 6 == NUM_FRAME_BITS && (AllExact(steps, soft) <==> NoWrap(soft, NUM_FRAME_BITS))
    {
      hide IsRun, AllExact, Early, Running, Decided, EndOnBestPath, NoWrap, DistTable, CodeTable, PairLookup, BitIo.Bits;
      Start(soft, decoded);
      VitInner(soft);
      VitTail(soft);
      RunningIsValid(soft, NUM_FRAME_BITS);
      ExactWhileNoWrap(start, steps, soft);
      bits := Finish(soft);
    }

    lemma RunningIsValid(soft: seq<Byte>, n: nat)
      requires Running(soft, n)
      ensures Valid() && OwnWriter() && IsRun(start, steps, soft) && |steps| + 6 == n && 2 * n <= |soft|
    {
      hide IsRun;
    }

    lemma MakeStep(errs: seq<U16>, t: Step, soft: seq<Byte>, n: nat)
      requires |errs| >= 64 && |t.written| >= 64 && |t.errs| >= 64 && Column(t.column) && t.best < 64
      requires 7 <= n <= NUM_FRAME_BITS && 2 * n <= |soft| && RowSelected(errs, t.written, t.column, soft, n, n > NUM_FRAME_BITS - 6)
      requires Phase(n - 6) == 0 ==> n <= NUM_FRAME_BITS - 6 && Least(t.written, 1, t.best)
      requires BroughtDown(t.written, t.errs, Phase(n - 6) == 0, t.best)
      ensures StepFrom(errs, t, soft, n)
    {
      hide RowSelected, BroughtDown, Least;
    }
  }
}
