/** The whole link with both blocks at work: the encoder hands out its symbols in buffers
    of any size and the decoder takes each as it comes. */
module Ax25Link {
  import opened Ax25Fcs
  import opened Ax25Frame
  import opened Ax25Encoder
  import opened Ax25Decoder
  import opened Ax25Stream

  lemma BytesOfBools(bytes: seq<bv8>)
    requires ZeroOne(bytes)
    ensures AsBytes(AsBools(bytes)) == bytes
  {}

  lemma BytesJoin(a: seq<bool>, b: seq<bool>)
    ensures AsBytes(a + b) == AsBytes(a) + AsBytes(b)
  {}

  // The decoder has taken the given symbols since it was idle and had published before.
  ghost predicate Taken(c: Config, before: seq<Publication>, symbols: seq<bool>, s: State, published: seq<Publication>) {
    Run(c, INITIAL, AsBytes(symbols)) == (s, Added(before, published)) && IsPrefix(before, published)
  }

  ghost predicate IsPrefix(before: seq<Publication>, published: seq<Publication>) {
    |before| <= |published| && published[..|before|] == before
  }

  ghost function Added(before: seq<Publication>, published: seq<Publication>): seq<Publication> {
    if |before| <= |published| then published[|before|..] else []
  }

  lemma NothingTaken(c: Config, before: seq<Publication>)
    ensures Taken(c, before, [], INITIAL, before)
  {}

  lemma MoreTaken(c: Config, before: seq<Publication>, done: seq<bool>, out: seq<bv8>, s: State, published: seq<Publication>)
    requires ZeroOne(out) && Taken(c, before, done, s, published)
    ensures Taken(c, before, done + AsBools(out), Run(c, s, out).0, published + Run(c, s, out).1)
  {
    hide Run, ZeroOne;
    BytesOfBools(out);
    BytesJoin(done, AsBools(out));
    RunConcat(c, INITIAL, AsBytes(done), out);
    var more := Run(c, s, out).1;
    assert (published + more)[|before|..] == published[|before|..] + more;
  }

  lemma AllTaken(c: Config, pre: nat, post: nat, addr: seq<bv8>, infos: seq<seq<bv8>>, info: seq<bv8>, s: State, published: seq<Publication>)
    requires pre > 0 && post > 0 && AddressField(addr) && |info| + 18 < c.maxFrameLen
    requires Taken(c, ExpectedPdus(c, addr, infos), FrameSymbols(pre, post, addr, info), s, published)
    ensures s == INITIAL && published == ExpectedPdus(c, addr, infos + [info])
  {
    hide Run, FrameSymbols, AddressField;
    FrameRoundTrip(c, pre, post, addr, info);
    var before := ExpectedPdus(c, addr, infos);
    assert published == before + published[|before|..];
    assert ExpectedPdus(c, addr, infos + [info]) == before + [ExpectedPdu(c, addr, info)];
  }

  // One message: the encoder works until it has nothing left, with room(i) symbols in call i.
  method Exchange(encoder: Encoder, decoder: Decoder, info: seq<bv8>, room: nat -> nat, ghost before: seq<Publication>)
    requires encoder.Valid() && encoder.remaining == 0 && decoder.Valid() && |info| <= MAX_INFO_LEN && forall i :: room(i) > 0
    requires encoder.encodedFrame != decoder.frameBuffer && encoder.tmpBuf != decoder.frameBuffer && encoder.addrField != decoder.frameBuffer
    requires decoder.Abs() == INITIAL && decoder.published == before
    modifies encoder, encoder.encodedFrame, encoder.tmpBuf, decoder, decoder.frameBuffer
    ensures encoder.Valid() && encoder.remaining == 0 && decoder.Valid() && encoder.addrField[..] == old(encoder.addrField[..])
    ensures Taken(decoder.Cfg(), before, FrameSymbols(encoder.preambleLen, encoder.postambleLen, encoder.addrField[..MIN_ADDR_LEN], info), decoder.Abs(), decoder.published)
  {
    hide Taken, FrameSymbols, Nrzi, ZeroOne, AsBools, Run;
    ghost var c, whole := decoder.Cfg(), FrameSymbols(encoder.preambleLen, encoder.postambleLen, encoder.addrField[..MIN_ADDR_LEN], info);
    ghost var done: seq<bool> := [];
    NothingTaken(c, before);
    var calls := 0;
    var more := true;
    while more
      invariant encoder.Valid() && decoder.Valid() && encoder.addrField[..] == old(encoder.addrField[..])
      invariant Taken(c, before, done, decoder.Abs(), decoder.published)
      invariant if calls == 0 then more && done == [] && encoder.remaining == 0 else done + encoder.Pending() == whole
      invariant calls > 0 ==> more == (encoder.remaining > 0)
      decreases |whole| - |done|, more
    {
      var out := new bv8[room(calls)](_ => 0);
      ghost var s, published := decoder.Abs(), decoder.published;
      var n := encoder.Work(room(calls), info, out);
      assert encoder.addrField[..MIN_ADDR_LEN] == encoder.addrField[..][..MIN_ADDR_LEN];
      decoder.Feed(out[..n]);
      MoreTaken(c, before, done, out[..n], s, published);
      BoolsLength(out[..n]);
      assert done + AsBools(out[..n]) + encoder.Pending() == whole by {
        assert done + AsBools(out[..n]) + encoder.Pending() == done + (AsBools(out[..n]) + encoder.Pending());
      }
      done := done + AsBools(out[..n]);
      calls := calls + 1;
      more := encoder.remaining > 0;
    }
    assert done == whole;
  }

  lemma BoolsLength(bytes: seq<bv8>)
    ensures |AsBools(bytes)| == |bytes|
  {}

  // Sends all the messages over a new link. Whatever the sizes of the buffers, exactly the
  // messages are published, in order.
  method SendAndReceive(dest: seq<bv8>, destSsid: bv8, src: seq<bv8>, srcSsid: bv8, pre: nat, post: nat, maxLen: nat, strip: bool,
                        infos: seq<seq<bv8>>, room: nat -> nat) returns (published: seq<Publication>)
    requires |dest| <= CALLSIGN_MAX_LEN && |src| <= CALLSIGN_MAX_LEN && pre > 0 && post > 0
    requires forall i :: 0 <= i < |infos| ==> |infos[i]| <= MAX_INFO_LEN && |infos[i]| + 18 < maxLen
    requires forall i :: room(i) > 0
    ensures published == ExpectedPdus(Config(maxLen, strip), AddrField(dest, destSsid, src, srcSsid), infos)
  {
    hide AddressField, AddrField, FrameSymbols, ExpectedPdu, Taken, ZeroOne, Run;
    var encoder := new Encoder(dest, destSsid, src, srcSsid, pre, post);
    var decoder := new Decoder(maxLen, strip);
    ghost var c, addr := Config(maxLen, strip), AddrField(dest, destSsid, src, srcSsid);
    BuiltAddress(dest, destSsid, src, srcSsid);
    for j := 0 to |infos|
      invariant encoder.Valid() && encoder.remaining == 0 && decoder.Valid() && encoder.addrField[..MIN_ADDR_LEN] == addr
      invariant fresh(encoder) && fresh(encoder.encodedFrame) && fresh(encoder.tmpBuf) && fresh(decoder) && fresh(decoder.frameBuffer)
      invariant decoder.Abs() == INITIAL && decoder.published == ExpectedPdus(c, addr, infos[..j])
    {
      Exchange(encoder, decoder, infos[j], room, ExpectedPdus(c, addr, infos[..j]));
      assert encoder.addrField[..MIN_ADDR_LEN] == encoder.addrField[..][..MIN_ADDR_LEN];
      AllTaken(c, pre, post, addr, infos[..j], infos[j], decoder.Abs(), decoder.published);
      assert infos[..j] + [infos[j]] == infos[..j + 1];
    }
    assert infos[..|infos|] == infos;
    published := decoder.published;
  }

  // ----- a length that wraps ----------------------------------------------------------------

  // An address with at most one byte after it makes a frame that is good but shorter than the
  // header that is taken off it.
  lemma ShortFrameIsGood(c: Config, addr: seq<bv8>, extra: seq<bv8>)
    requires AddressField(addr) && |extra| <= 1 && c.stripHeaders && |addr| + |extra| + 2 < c.maxFrameLen
    ensures var bytes := WithFcs(addr + extra);
      |bytes| > 0 && Acceptable(c, bytes) && FramePublications(c, bytes) == [WrappedPdu]
  {
    hide Fcs, FcsBytes, RecvFcs, LowBit;
    var content := addr + extra;
    var bytes := WithFcs(content);
    assert bytes[..|content|] == content;
    FcsJoined(Fcs(content));
    forall i | 0 <= i < |bytes|
      ensures ByteAllowed(bytes[i], i)
    {
      if i < MIN_ADDR_LEN {
        assert bytes[i] == addr[i];
      }
    }
    assert GoodFcs(bytes);
    HeaderIsSixteen(bytes);
  }

  // With header stripping, such a frame on the line makes the decoder publish a wrapped length.
  // Any address that the encoder builds will do.
  lemma LengthWraps(c: Config, pre: nat, post: nat, dest: seq<bv8>, destSsid: bv8, src: seq<bv8>, srcSsid: bv8, extra: seq<bv8>)
    requires pre > 0 && post > 0 && |dest| <= CALLSIGN_MAX_LEN && |src| <= CALLSIGN_MAX_LEN
    requires |extra| <= 1 && c.stripHeaders && MIN_ADDR_LEN + |extra| + 2 < c.maxFrameLen
    ensures var bytes := WithFcs(AddrField(dest, destSsid, src, srcSsid) + extra);
      Run(c, INITIAL, AsBytes(Nrzi(false, FlagBits(pre) + Stuff(0, Bits(bytes)) + FlagBits(post) + Zeros(8)))) == (INITIAL, [WrappedPdu])
  {
    hide FlagBits, Stuff, Bits, WithFcs, Acceptable, FramePublications, Run, Nrzi, Zeros, AddrField;
    var addr := AddrField(dest, destSsid, src, srcSsid);
    BuiltAddress(dest, destSsid, src, srcSsid);
    ShortFrameIsGood(c, addr, extra);
    FrameRun(c, pre, post, WithFcs(addr + extra));
  }
}
