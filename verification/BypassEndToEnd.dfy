/** From a policy epoch to a verdict: the epoch is flattened and packed by the
    daemon, decoded and indexed by the module, and the module's answer for any
    destination is the epoch's own answer. */
module BypassEndToEnd {
  import opened Words
  import opened KernelSort
  import opened PrefixIndex
  import K = BypassKernel
  import P = PolicyEpochs

  // ----------------------------------------------------------- encode_bypass

  /** struct Pfx4: the address word holds the octets in native storage order. */
  datatype Pfx4 = Pfx4(addr: bv32, prefixlen: bv8, tag: bv8, pad: (bv8, bv8))

  datatype Pfx6 = Pfx6(addr: Bytes, prefixlen: bv8, tag: bv8, pad: (bv8, bv8))

  function Pfx4Bytes(e: Endian, p: Pfx4): (b: Bytes)
    ensures |b| == 8
  {
    ToNe32(e, p.addr) + [p.prefixlen, p.tag, p.pad.0, p.pad.1]
  }

  function Pfx6Bytes(p: Pfx6): Bytes {
    p.addr + [p.prefixlen, p.tag, p.pad.0, p.pad.1]
  }

  function Concat<T>(xs: seq<T>, enc: T -> Bytes): Bytes {
    if xs == [] then [] else Concat(xs[..|xs| - 1], enc) + enc(xs[|xs| - 1])
  }

  datatype Args = Args(cidrMode: nat, v4: seq<Pfx4>, v6: seq<Pfx6>, self4: seq<bv32>, self6: seq<Bytes>)

  const U32: nat := 0x1_0000_0000

  /** The casts to u32 wrap. */
  function HeaderBytes(e: Endian, a: Args): (b: Bytes)
    ensures |b| == 20
  {
    CountToNe(e, a.cidrMode % U32) + CountToNe(e, |a.v4| % U32) + CountToNe(e, |a.v6| % U32)
    + CountToNe(e, |a.self4| % U32) + CountToNe(e, |a.self6| % U32)
  }

  function Payload4(e: Endian, a: Args): Bytes {
    Concat(a.v4, p => Pfx4Bytes(e, p))
  }

  function Payload6(a: Args): Bytes {
    Concat(a.v6, p => Pfx6Bytes(p))
  }

  function PayloadSelf4(e: Endian, a: Args): Bytes {
    Concat(a.self4, x => ToNe32(e, x))
  }

  function PayloadSelf6(a: Args): Bytes {
    Concat(a.self6, x => x)
  }

  function Encoded(e: Endian, a: Args): Bytes {
    HeaderBytes(e, a) + Payload4(e, a) + Payload6(a) + PayloadSelf4(e, a) + PayloadSelf6(a)
  }

  /** The fixed-size address arrays of the Rust types. */
  ghost predicate Typed(a: Args) {
    && (forall p :: p in a.v6 ==> |p.addr| == 16)
    && (forall x :: x in a.self6 ==> |x| == 16)
  }

  method AppendAll<T>(buf0: Bytes, xs: seq<T>, enc: T -> Bytes) returns (buf: Bytes)
    ensures buf == buf0 + Concat(xs, enc)
  {
    buf := buf0;
    for i := 0 to |xs|
      invariant buf == buf0 + Concat(xs[..i], enc)
    {
      buf := buf + enc(xs[i]);
      assert xs[..i + 1][..i] == xs[..i];
    }
    assert xs[..|xs|] == xs;
  }

  function BypassPayloadLen(v4: nat, v6: nat, self4: nat, self6: nat): nat {
    20 + v4 * 8 + v6 * 20 + self4 * 4 + self6 * 16
  }

  method EncodeBypass(e: Endian, a: Args) returns (buf: Bytes)
    requires Typed(a)
    ensures buf == Encoded(e, a)
    ensures |buf| == BypassPayloadLen(|a.v4|, |a.v6|, |a.self4|, |a.self6|)
  {
    buf := HeaderBytes(e, a);
    buf := AppendAll(buf, a.v4, p => Pfx4Bytes(e, p));
    buf := AppendAll(buf, a.v6, p => Pfx6Bytes(p));
    buf := AppendAll(buf, a.self4, x => ToNe32(e, x));
    buf := AppendAll(buf, a.self6, x => x);
    ChunkLengths(e, a);
  }

  lemma MulNext(size: nat, n: nat)
    ensures size * (n + 1) == size * n + size
  {
  }

  lemma {:induction false} ConcatLen<T>(xs: seq<T>, enc: T -> Bytes, size: nat)
    requires forall x :: x in xs ==> |enc(x)| == size
    ensures |Concat(xs, enc)| == size * |xs|
  {
    if xs != [] {
      ConcatLen(xs[..|xs| - 1], enc, size);
      MulNext(size, |xs| - 1);
    }
  }

  /** Element i of a packed array sits at offset size * i. */
  lemma {:induction false} ConcatChunk<T>(xs: seq<T>, enc: T -> Bytes, size: nat, i: nat)
    requires forall x :: x in xs ==> |enc(x)| == size
    requires i < |xs|
    ensures |Concat(xs, enc)| == size * |xs| && 0 <= size * i <= size * i + size <= size * |xs|
    ensures Concat(xs, enc)[size * i..size * i + size] == enc(xs[i])
  {
    var front := xs[..|xs| - 1];
    ConcatLen(xs, enc, size);
    ConcatLen(front, enc, size);
    MulNext(size, |front|);
    if i < |front| {
      ConcatChunk(front, enc, size, i);
      assert front[i] == xs[i];
    }
  }

  lemma ChunkLengths(e: Endian, a: Args)
    requires Typed(a)
    ensures |Payload4(e, a)| == 8 * |a.v4| && |Payload6(a)| == 20 * |a.v6|
    ensures |PayloadSelf4(e, a)| == 4 * |a.self4| && |PayloadSelf6(a)| == 16 * |a.self6|
  {
    ConcatLen(a.v4, p => Pfx4Bytes(e, p), 8);
    ConcatLen(a.v6, p => Pfx6Bytes(p), 20);
    ConcatLen(a.self4, x => ToNe32(e, x), 4);
    ConcatLen(a.self6, x => x, 16);
  }

  // ------------------------------------------------------- decode after encode

  function Wire4(e: Endian, p: Pfx4): Pfx<bv32> {
    Pfx(Ntohl(e, p.addr), p.prefixlen as nat, p.tag as nat)
  }

  function Wire6(p: Pfx6): Pfx<Bytes> {
    Pfx(p.addr, p.prefixlen as nat, p.tag as nat)
  }

  /** What the module is meant to read back. */
  function Meaning(e: Endian, a: Args): K.Request {
    K.Request(a.cidrMode,
              seq(|a.v4|, i requires 0 <= i < |a.v4| => Wire4(e, a.v4[i])),
              seq(|a.v6|, i requires 0 <= i < |a.v6| => Wire6(a.v6[i])),
              seq(|a.self4|, i requires 0 <= i < |a.self4| => Ntohl(e, a.self4[i])),
              a.self6)
  }

  predicate Counted(a: Args) {
    a.cidrMode < U32 && |a.v4| < U32 && |a.v6| < U32 && |a.self4| < U32 && |a.self6| < U32
  }

  lemma HeaderRoundTrip(e: Endian, a: Args, user: Bytes)
    requires Counted(a) && HeaderBytes(e, a) <= user
    ensures |user| >= 20
    ensures K.HeaderOf(e, user) == K.Header(a.cidrMode, |a.v4|, |a.v6|, |a.self4|, |a.self6|)
  {
    hide CountToNe, CountFromNe;
    var h := HeaderBytes(e, a);
    assert user[..20] == h;
    assert user[0..4] == h[0..4] == CountToNe(e, a.cidrMode);
    assert user[4..8] == h[4..8] == CountToNe(e, |a.v4|);
    assert user[8..12] == h[8..12] == CountToNe(e, |a.v6|);
    assert user[12..16] == h[12..16] == CountToNe(e, |a.self4|);
    assert user[16..20] == h[16..20] == CountToNe(e, |a.self6|);
    CountRoundTrip(e, a.cidrMode);
    CountRoundTrip(e, |a.v4|);
    CountRoundTrip(e, |a.v6|);
    CountRoundTrip(e, |a.self4|);
    CountRoundTrip(e, |a.self6|);
  }

  lemma Chunk4(e: Endian, a: Args, i: nat)
    requires Typed(a) && i < |a.v4|
    ensures |Payload4(e, a)| == 8 * |a.v4|
    ensures K.Pfx4At(e, Payload4(e, a)[8 * i..8 * i + 8]) == Wire4(e, a.v4[i])
  {
    hide Concat, Ntohl, FromNe32;
    ConcatChunk(a.v4, p => Pfx4Bytes(e, p), 8, i);
    var c := Pfx4Bytes(e, a.v4[i]);
    assert c[..4] == ToNe32(e, a.v4[i].addr);
    NativeWordRoundTrip(e, a.v4[i].addr);
  }

  lemma Decode4Encoded(e: Endian, a: Args)
    requires Typed(a)
    ensures |Payload4(e, a)| == 8 * |a.v4| && K.Decode4(e, Payload4(e, a), |a.v4|) == Meaning(e, a).v4
  {
    hide Payload4, K.Pfx4At, Wire4;
    ChunkLengths(e, a);
    forall i | 0 <= i < |a.v4|
      ensures K.Pfx4At(e, Payload4(e, a)[8 * i..8 * i + 8]) == Wire4(e, a.v4[i])
    {
      Chunk4(e, a, i);
    }
  }

  lemma Chunk6(a: Args, i: nat)
    requires Typed(a) && i < |a.v6|
    ensures |Payload6(a)| == 20 * |a.v6|
    ensures K.Pfx6At(Payload6(a)[20 * i..20 * i + 20]) == Wire6(a.v6[i])
  {
    hide Concat;
    ConcatChunk(a.v6, p => Pfx6Bytes(p), 20, i);
    assert Pfx6Bytes(a.v6[i])[..16] == a.v6[i].addr;
  }

  lemma Decode6Encoded(e: Endian, a: Args)
    requires Typed(a)
    ensures |Payload6(a)| == 20 * |a.v6| && K.Decode6(Payload6(a), |a.v6|) == Meaning(e, a).v6
  {
    hide Payload6, K.Pfx6At, Wire6;
    ChunkLengths(e, a);
    forall i | 0 <= i < |a.v6|
      ensures K.Pfx6At(Payload6(a)[20 * i..20 * i + 20]) == Wire6(a.v6[i])
    {
      Chunk6(a, i);
    }
  }

  lemma ChunkSelf4(e: Endian, a: Args, i: nat)
    requires i < |a.self4|
    ensures |PayloadSelf4(e, a)| == 4 * |a.self4|
    ensures FromNe32(e, PayloadSelf4(e, a)[4 * i..4 * i + 4]) == a.self4[i]
  {
    hide Concat, FromNe32;
    ConcatChunk(a.self4, x => ToNe32(e, x), 4, i);
    NativeWordRoundTrip(e, a.self4[i]);
  }

  lemma ChunkSelf6(a: Args, i: nat)
    requires Typed(a) && i < |a.self6|
    ensures |PayloadSelf6(a)| == 16 * |a.self6|
    ensures PayloadSelf6(a)[16 * i..16 * i + 16] == a.self6[i]
  {
    hide Concat;
    ConcatChunk(a.self6, x => x, 16, i);
  }

  lemma DecodeSelfEncoded(e: Endian, a: Args)
    requires Typed(a)
    ensures |PayloadSelf4(e, a)| == 4 * |a.self4| && |PayloadSelf6(a)| == 16 * |a.self6|
    ensures K.DecodeSelf4(e, PayloadSelf4(e, a), |a.self4|) == Meaning(e, a).self4
    ensures K.DecodeSelf6(PayloadSelf6(a), |a.self6|) == a.self6
  {
    hide PayloadSelf4, PayloadSelf6, FromNe32, Ntohl;
    ChunkLengths(e, a);
    forall i | 0 <= i < |a.self4|
      ensures FromNe32(e, PayloadSelf4(e, a)[4 * i..4 * i + 4]) == a.self4[i]
    {
      ChunkSelf4(e, a, i);
    }
    forall i | 0 <= i < |a.self6|
      ensures PayloadSelf6(a)[16 * i..16 * i + 16] == a.self6[i]
    {
      ChunkSelf6(a, i);
    }
  }

  /** The module reads back exactly what was packed, on either byte order, even
      when the user buffer is longer than the payload. */
  lemma DecodeOfEncode(e: Endian, a: Args, rest: Bytes)
    requires Typed(a) && Counted(a)
    ensures K.Complete(e, Encoded(e, a) + rest)
    ensures K.RequestOf(e, Encoded(e, a) + rest) == Meaning(e, a)
  {
    hide HeaderBytes, Payload4, Payload6, PayloadSelf4, PayloadSelf6, Meaning, Typed;
    hide K.HeaderOf, K.Decode4, K.Decode6, K.DecodeSelf4, K.DecodeSelf6;
    var user := Encoded(e, a) + rest;
    HeaderRoundTrip(e, a, user);
    Decode4Encoded(e, a);
    Decode6Encoded(e, a);
    DecodeSelfEncoded(e, a);
    var p, q, r, s := Payload4(e, a), Payload6(a), PayloadSelf4(e, a), PayloadSelf6(a);
    Slices(HeaderBytes(e, a), p, q, r, s, rest);
    assert Meaning(e, a).cidrMode == a.cidrMode && Meaning(e, a).self6 == a.self6 by {
      MeaningParts(e, a);
    }
  }

  lemma Slice(before: Bytes, part: Bytes, after: Bytes)
    ensures (before + part + after)[|before|..|before| + |part|] == part
  {
  }

  lemma Slices(h: Bytes, p: Bytes, q: Bytes, r: Bytes, s: Bytes, rest: Bytes)
    ensures var user := h + p + q + r + s + rest;
            var i, j, k := |h| + |p|, |h| + |p| + |q|, |h| + |p| + |q| + |r|;
            && h <= user && user[|h|..i] == p && user[i..j] == q && user[j..k] == r && user[k..k + |s|] == s
  {
    var user := h + p + q + r + s + rest;
    assert user == h + p + (q + r + s + rest) == h + p + q + (r + s + rest) == h + p + q + r + (s + rest);
    Slice(h, p, q + r + s + rest);
    Slice(h + p, q, r + s + rest);
    Slice(h + p + q, r, s + rest);
    Slice(h + p + q + r, s, rest);
  }

  lemma MeaningParts(e: Endian, a: Args)
    ensures Meaning(e, a).cidrMode == a.cidrMode && Meaning(e, a).self6 == a.self6
  {
  }
}
