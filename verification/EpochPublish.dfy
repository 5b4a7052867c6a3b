/** The verdict of the published kernel set is the verdict of the policy epoch. */
module EpochPublish {
  import opened Words
  import opened Wrappers
  import opened KernelSort
  import opened PrefixIndex
  import opened BypassEndToEnd
  import K = BypassKernel
  import P = PolicyEpochs

  // ---------------------------------------------- the two forms of the same mask

  function ByteMask(k: bv8, plen: bv8): bv8 {
    var full, bits := plen / 8, plen % 8;
    if k < full then 0xff else if k == full && bits != 0 then (0xff as bv8) << (8 - bits) else 0
  }

  lemma MaskByte(addr: Bytes, plen: bv8, i: nat, k: bv8)
    requires |addr| == 16 && i < 16 && k as nat == i
    ensures K.MaskV6(addr, plen)[i] == addr[i] & ByteMask(k, plen)
  {
    var full := plen / 8;
    assert i < full as nat <==> k < full;
  }

  /** Sixteen masked bytes, read as one word, are the masked word. */
  lemma MaskedWord(b: Bytes, c: Bytes, plen: bv8)
    requires |b| == |c| == 16 && plen <= 128
    requires c[0] == b[0] & ByteMask(0, plen) && c[1] == b[1] & ByteMask(1, plen)
    requires c[2] == b[2] & ByteMask(2, plen) && c[3] == b[3] & ByteMask(3, plen)
    requires c[4] == b[4] & ByteMask(4, plen) && c[5] == b[5] & ByteMask(5, plen)
    requires c[6] == b[6] & ByteMask(6, plen) && c[7] == b[7] & ByteMask(7, plen)
    requires c[8] == b[8] & ByteMask(8, plen) && c[9] == b[9] & ByteMask(9, plen)
    requires c[10] == b[10] & ByteMask(10, plen) && c[11] == b[11] & ByteMask(11, plen)
    requires c[12] == b[12] & ByteMask(12, plen) && c[13] == b[13] & ByteMask(13, plen)
    requires c[14] == b[14] & ByteMask(14, plen) && c[15] == b[15] & ByteMask(15, plen)
    ensures Be128(c) == Be128(b) & P.Mask128(plen)
  {
  }

  /** The byte-wise mask_v6 of the module is the 128-bit mask of the control plane. */
  lemma MaskV6IsMask128(addr: Bytes, plen: bv8)
    requires |addr| == 16 && plen <= 128
    ensures Be128(K.MaskV6(addr, plen)) == Be128(addr) & P.Mask128(plen)
  {
    hide K.MaskV6, Be128, P.Mask128, ByteMask;
    MaskByte(addr, plen, 0, 0);
    MaskByte(addr, plen, 1, 1);
    MaskByte(addr, plen, 2, 2);
    MaskByte(addr, plen, 3, 3);
    MaskByte(addr, plen, 4, 4);
    MaskByte(addr, plen, 5, 5);
    MaskByte(addr, plen, 6, 6);
    MaskByte(addr, plen, 7, 7);
    MaskByte(addr, plen, 8, 8);
    MaskByte(addr, plen, 9, 9);
    MaskByte(addr, plen, 10, 10);
    MaskByte(addr, plen, 11, 11);
    MaskByte(addr, plen, 12, 12);
    MaskByte(addr, plen, 13, 13);
    MaskByte(addr, plen, 14, 14);
    MaskByte(addr, plen, 15, 15);
    MaskedWord(addr, K.MaskV6(addr, plen), plen);
  }

  lemma SmallByte(x: bv8)
    requires x as nat <= 128
    ensures x <= 128
  {
  }

  lemma MasksByName(len: nat)
    requires len <= 128
    ensures forall a :: K.V6.mask(a, len) == K.MaskV6(a, ByteOf(len))
    ensures forall a :: P.V6_SPACE.mask(a, len) == a & P.Mask128(ByteOf(len))
  {
    hide K.MaskV6, P.Mask128, ByteOf;
  }

  /** Masking commutes with taking the octets of an address. */
  lemma MasksCommute6(a: bv128, len: nat)
    requires len <= 128
    ensures K.V6.mask(Octets16(a), len) == Octets16(P.V6_SPACE.mask(a, len))
  {
    hide Octets16, Be128, K.MaskV6, P.Mask128, ByteOf;
    ByteRoundTrip(len);
    SmallByte(ByteOf(len));
    MaskV6IsMask128(Octets16(a), ByteOf(len));
    Be128Injective(K.MaskV6(Octets16(a), ByteOf(len)), Octets16(a & P.Mask128(ByteOf(len))));
    MasksByName(len);
  }

  // ------------------------------------------------------------ epoch to request

  function TagNumber(t: P.BypassTag): nat {
    match t
    case Reserved => RESERVED
    case Policy => POLICY
  }

  function ModeNumber(m: P.CidrMode): nat {
    match m
    case Blacklist => 0
    case Whitelist => 1
  }

  /** The prefixes of an epoch in the module's terms. */
  function Inputs<A, B>(conv: A -> B, entries: seq<(P.Cidr<A>, P.BypassTag)>): (r: seq<Pfx<B>>)
    ensures |r| == |entries|
    ensures forall i :: 0 <= i < |r| ==>
              r[i] == Pfx(conv(entries[i].0.addr), entries[i].0.len, TagNumber(entries[i].1))
  {
    seq(|entries|, i requires 0 <= i < |entries| =>
      Pfx(conv(entries[i].0.addr), entries[i].0.len, TagNumber(entries[i].1)))
  }

  ghost predicate Embeds<A(!new), B(!new)>(sp: P.Space<A>, f: Family<B>, conv: A -> B) {
    && sp.width == f.width
    && (forall a, len: nat :: len <= sp.width ==> f.mask(conv(a), len) == conv(sp.mask(a, len)))
    && (forall a, b :: conv(a) == conv(b) ==> a == b)
  }

  lemma CoversIsIn<A(!new), B(!new)>(sp: P.Space<A>, f: Family<B>, conv: A -> B, c: P.Cidr<A>, tag: nat, addr: A)
    requires Embeds(sp, f, conv) && P.Canonical(sp, c)
    ensures Masked(f, Pfx(conv(c.addr), c.len, tag)) == Pfx(conv(c.addr), c.len, tag)
    ensures Covers(f, Pfx(conv(c.addr), c.len, tag), conv(addr)) <==> P.In(sp, c, addr)
  {
  }

  /** A lookup among the masked inputs is the epoch's longest-prefix match. */
  lemma LookupIsLpm<A(!new), B(!new)>(
    sp: P.Space<A>, f: Family<B>, conv: A -> B, entries: seq<(P.Cidr<A>, P.BypassTag)>,
    m: map<P.Cidr<A>, P.BypassTag>, addr: A, hit: bool, tag: nat)
    requires Embeds(sp, f, conv) && P.Lists(entries, m) && forall c :: c in m ==> P.Canonical(sp, c)
    requires LookupMeans(f, MaskedAll(f, Inputs(conv, entries)), conv(addr), hit, tag)
    ensures hit <==> P.Lpm(sp, m, addr).Some?
    ensures hit ==> tag == TagNumber(P.Lpm(sp, m, addr).value)
  {
    hide Embeds, P.LongestFrom;
    var inputs := Inputs(conv, entries);
    var all := MaskedAll(f, inputs);
    forall i | 0 <= i < |entries|
      ensures all[i] == inputs[i] && (Covers(f, all[i], conv(addr)) <==> P.In(sp, entries[i].0, addr))
    {
      CoversIsIn(sp, f, conv, entries[i].0, TagNumber(entries[i].1), addr);
    }
    var found := P.LongestFrom(sp, m, addr, sp.width);
    if found.Some? {
      var k :| 0 <= k < |entries| && entries[k].0 == found.value;
      assert all[k] in all && Covers(f, all[k], conv(addr));
    }
    if hit {
      var e :| Longest(f, all, conv(addr), e) && e.tag == tag;
      var i :| 0 <= i < |all| && all[i] == e;
      P.LongestFromIsLongest(sp, m, addr, sp.width, entries[i].0);
      var k :| 0 <= k < |entries| && entries[k].0 == found.value;
      assert all[k] in all && Covers(f, all[k], conv(addr));
    }
  }

  /** The listings of the epoch's maps and sets that the daemon iterates over. */
  datatype Listing = Listing(
    v4: seq<(P.Cidr<bv32>, P.BypassTag)>, v6: seq<(P.Cidr<bv128>, P.BypassTag)>, self4: seq<bv32>, self6: seq<bv128>)

  ghost predicate Enumerates(l: Listing, epoch: P.PolicyEpoch) {
    && P.Lists(l.v4, epoch.bypassV4) && P.Lists(l.v6, epoch.bypassV6)
    && (forall a :: a in l.self4 <==> a in epoch.selfV4) && (forall a :: a in l.self6 <==> a in epoch.selfV6)
  }

  /** kmod_set_bypass's flattening of an epoch. */
  function EpochArgs(e: Endian, mode: P.CidrMode, l: Listing): (a: Args)
    ensures Typed(a) && |a.v4| == |l.v4| && |a.v6| == |l.v6| && |a.self4| == |l.self4| && |a.self6| == |l.self6|
  {
    Args(
      ModeNumber(mode),
      seq(|l.v4|, i requires 0 <= i < |l.v4| =>
        Pfx4(FromNe32(e, Octets4(l.v4[i].0.addr)), ByteOf(l.v4[i].0.len % 256), ByteOf(TagNumber(l.v4[i].1)), (0, 0))),
      seq(|l.v6|, i requires 0 <= i < |l.v6| =>
        Pfx6(Octets16(l.v6[i].0.addr), ByteOf(l.v6[i].0.len % 256), ByteOf(TagNumber(l.v6[i].1)), (0, 0))),
      seq(|l.self4|, i requires 0 <= i < |l.self4| => FromNe32(e, Octets4(l.self4[i]))),
      seq(|l.self6|, i requires 0 <= i < |l.self6| => Octets16(l.self6[i])))
  }

  ghost predicate LengthsFit(l: Listing) {
    && (forall i :: 0 <= i < |l.v4| ==> l.v4[i].0.len <= 32)
    && (forall i :: 0 <= i < |l.v6| ==> l.v6[i].0.len <= 128)
  }

  const AS_WORD: bv32 -> bv32 := (a: bv32) => a
  const AS_OCTETS: bv128 -> Bytes := (a: bv128) => Octets16(a)

  lemma WordsEmbed()
    ensures Embeds(P.V4_SPACE, K.V4, AS_WORD)
  {
    hide ByteOf;
    forall a, len: nat | len <= 32 ensures K.V4.mask(AS_WORD(a), len) == AS_WORD(P.V4_SPACE.mask(a, len)) {
      assert len < 256;
    }
  }

  lemma OctetsEmbed()
    ensures Embeds(P.V6_SPACE, K.V6, AS_OCTETS)
  {
    hide Octets16, K.MaskV6, P.Mask128, ByteOf, Be128;
    forall a, len: nat | len <= 128
      ensures K.V6.mask(AS_OCTETS(a), len) == AS_OCTETS(P.V6_SPACE.mask(a, len))
    {
      MasksCommute6(a, len);
    }
    forall a, b | AS_OCTETS(a) == AS_OCTETS(b) ensures a == b {
      assert Be128(Octets16(a)) == a && Be128(Octets16(b)) == b;
    }
  }

  lemma EpochMeaning4(e: Endian, mode: P.CidrMode, l: Listing)
    requires LengthsFit(l)
    ensures Meaning(e, EpochArgs(e, mode, l)).v4 == Inputs(AS_WORD, l.v4)
  {
    hide Octets4, Octets16, FromNe32, Ntohl, ByteOf, Be32, Be128;
    var r := Meaning(e, EpochArgs(e, mode, l));
    ByteRoundTrip(RESERVED);
    ByteRoundTrip(POLICY);
    forall i | 0 <= i < |l.v4| ensures r.v4[i] == Inputs(AS_WORD, l.v4)[i] {
      NativeAddressRoundTrip(e, Octets4(l.v4[i].0.addr));
      ByteRoundTrip(l.v4[i].0.len);
    }
  }

  lemma EpochMeaning6(e: Endian, mode: P.CidrMode, l: Listing)
    requires LengthsFit(l)
    ensures Meaning(e, EpochArgs(e, mode, l)).v6 == Inputs(AS_OCTETS, l.v6)
  {
    hide Octets4, Octets16, FromNe32, Ntohl, ByteOf, Be32, Be128;
    var r := Meaning(e, EpochArgs(e, mode, l));
    ByteRoundTrip(RESERVED);
    ByteRoundTrip(POLICY);
    forall i | 0 <= i < |l.v6| ensures r.v6[i] == Inputs(AS_OCTETS, l.v6)[i] {
      ByteRoundTrip(l.v6[i].0.len);
    }
  }

  lemma EpochMeaningSelf(e: Endian, mode: P.CidrMode, l: Listing)
    ensures var r := Meaning(e, EpochArgs(e, mode, l));
            && r.cidrMode == ModeNumber(mode) && r.self4 == l.self4
            && r.self6 == seq(|l.self6|, i requires 0 <= i < |l.self6| => Octets16(l.self6[i]))
  {
    hide Octets4, Octets16, FromNe32, Ntohl, ByteOf, Be32, Be128;
    var r := Meaning(e, EpochArgs(e, mode, l));
    forall i | 0 <= i < |l.self4| ensures r.self4[i] == l.self4[i] {
      NativeAddressRoundTrip(e, Octets4(l.self4[i]));
    }
  }

  /** What the module reads back of a flattened epoch. */
  lemma EpochMeaning(e: Endian, mode: P.CidrMode, l: Listing)
    requires LengthsFit(l)
    ensures var r := Meaning(e, EpochArgs(e, mode, l));
            && r.cidrMode == ModeNumber(mode)
            && r.v4 == Inputs(AS_WORD, l.v4) && r.v6 == Inputs(AS_OCTETS, l.v6)
            && r.self4 == l.self4 && r.self6 == seq(|l.self6|, i requires 0 <= i < |l.self6| => Octets16(l.self6[i]))
  {
    hide Meaning, EpochArgs, Inputs, Octets16;
    EpochMeaning4(e, mode, l);
    EpochMeaning6(e, mode, l);
    EpochMeaningSelf(e, mode, l);
  }

  function PacketTo(d: P.Dest): (k: K.Packet)
    ensures K.WellFormedPacket(k)
  {
    match d
    case V4(a) => K.Ipv4(Octets4(a))
    case V6(a) => K.Ipv6(Octets16(a))
  }

  /** The kernel's tag table is the control plane's. */
  lemma TagTables(mode: P.CidrMode, hit: bool, tag: nat, found: Option<P.BypassTag>)
    requires hit <==> found.Some?
    requires hit ==> tag == TagNumber(found.value)
    ensures K.TagDirect(ModeNumber(mode), hit, tag) == P.TagDirect(mode, found)
  {
  }

  lemma AnswerV4(e: Endian, epoch: P.PolicyEpoch, l: Listing, p: K.Published, addr: bv32, direct: bool)
    requires P.WellFormed(epoch) && Enumerates(l, epoch) && LengthsFit(l)
    requires K.Answers(p, Meaning(e, EpochArgs(e, epoch.cidrMode, l)))
    requires K.DirectMeans(p, K.Ipv4(Octets4(addr)), direct)
    ensures direct == P.BypassDirect(epoch, P.V4(addr))
  {
    hide Octets4, Be32, P.Lpm, BuiltFrom, EpochArgs, Meaning, P.WellFormed;
    EpochMeaning(e, epoch.cidrMode, l);
    assert Be32(Octets4(addr)) == addr;
    if addr !in epoch.selfV4 {
      var hit, tag :| LookupMeans(K.V4, p.v4, addr, hit, tag) && direct == K.TagDirect(p.cidrMode, hit, tag);
      K.FamiliesOrdered();
      BuiltLookup(K.V4, Inputs(AS_WORD, l.v4), p.v4, addr, hit, tag);
      WordsEmbed();
      Canonical4(epoch);
      LookupIsLpm(P.V4_SPACE, K.V4, AS_WORD, l.v4, epoch.bypassV4, addr, hit, tag);
      TagTables(epoch.cidrMode, hit, tag, P.Lpm(P.V4_SPACE, epoch.bypassV4, addr));
    }
  }

  lemma AnswerV6(e: Endian, epoch: P.PolicyEpoch, l: Listing, p: K.Published, addr: bv128, direct: bool)
    requires P.WellFormed(epoch) && Enumerates(l, epoch) && LengthsFit(l)
    requires K.Answers(p, Meaning(e, EpochArgs(e, epoch.cidrMode, l)))
    requires K.DirectMeans(p, K.Ipv6(Octets16(addr)), direct)
    ensures direct == P.BypassDirect(epoch, P.V6(addr))
  {
    hide Octets16, Be128, P.Lpm, BuiltFrom, EpochArgs, Meaning, P.WellFormed;
    EpochMeaning(e, epoch.cidrMode, l);
    SelfOctets(l, epoch, addr);
    if addr !in epoch.selfV6 {
      var hit, tag :| LookupMeans(K.V6, p.v6, Octets16(addr), hit, tag) && direct == K.TagDirect(p.cidrMode, hit, tag);
      K.FamiliesOrdered();
      BuiltLookup(K.V6, Inputs(AS_OCTETS, l.v6), p.v6, Octets16(addr), hit, tag);
      OctetsEmbed();
      Canonical6(epoch);
      LookupIsLpm(P.V6_SPACE, K.V6, AS_OCTETS, l.v6, epoch.bypassV6, addr, hit, tag);
      TagTables(epoch.cidrMode, hit, tag, P.Lpm(P.V6_SPACE, epoch.bypassV6, addr));
    }
  }

  lemma Canonical4(epoch: P.PolicyEpoch)
    requires P.WellFormed(epoch)
    ensures forall c :: c in epoch.bypassV4 ==> P.Canonical(P.V4_SPACE, c)
  {
  }

  lemma Canonical6(epoch: P.PolicyEpoch)
    requires P.WellFormed(epoch)
    ensures forall c :: c in epoch.bypassV6 ==> P.Canonical(P.V6_SPACE, c)
  {
  }

  lemma SelfOctets(l: Listing, epoch: P.PolicyEpoch, addr: bv128)
    requires forall a :: a in l.self6 <==> a in epoch.selfV6
    ensures Octets16(addr) in seq(|l.self6|, i requires 0 <= i < |l.self6| => Octets16(l.self6[i])) <==> addr in epoch.selfV6
  {
    hide Octets16, Be128;
    var s := seq(|l.self6|, i requires 0 <= i < |l.self6| => Octets16(l.self6[i]));
    if addr in epoch.selfV6 {
      var i :| 0 <= i < |l.self6| && l.self6[i] == addr;
      assert s[i] == Octets16(addr);
    }
    if Octets16(addr) in s {
      var i :| 0 <= i < |s| && s[i] == Octets16(addr);
      assert Be128(Octets16(l.self6[i])) == l.self6[i] && Be128(Octets16(addr)) == addr;
    }
  }

  /** End to end: once the module answers the flattened epoch, every verdict it
      may give is the epoch's. */
  lemma PublishedAnswersEpoch(e: Endian, epoch: P.PolicyEpoch, l: Listing, p: K.Published, d: P.Dest, direct: bool)
    requires P.WellFormed(epoch) && Enumerates(l, epoch)
    requires K.Answers(p, Meaning(e, EpochArgs(e, epoch.cidrMode, l)))
    requires K.DirectMeans(p, PacketTo(d), direct)
    ensures direct == P.BypassDirect(epoch, d)
  {
    hide Octets4, Octets16, Be32, Be128, P.Lpm, EpochArgs, Meaning, K.Answers, K.DirectMeans, P.BypassDirect;
    ListingFits(epoch, l);
    match d
    case V4(a) => AnswerV4(e, epoch, l, p, a, direct);
    case V6(a) => AnswerV6(e, epoch, l, p, a, direct);
  }

  lemma ListingFits(epoch: P.PolicyEpoch, l: Listing)
    requires P.WellFormed(epoch) && Enumerates(l, epoch)
    ensures LengthsFit(l)
  {
  }

  // -------------------------------------------------------- publish and probe

  predicate WithinCaps(l: Listing) {
    |l.v4| <= K.LPM_MAX && |l.v6| <= K.LPM_MAX && |l.self4| <= K.SELF_MAX && |l.self6| <= K.SELF_MAX
  }

  datatype PublishResult = Accepted | InvalidInput | Refused(errno: K.Errno)

  ghost predicate Serves(p: K.Published, epoch: P.PolicyEpoch) {
    forall d, direct :: K.DirectMeans(p, PacketTo(d), direct) ==> direct == P.BypassDirect(epoch, d)
  }

  lemma AnswersServes(e: Endian, epoch: P.PolicyEpoch, l: Listing, p: K.Published)
    requires P.WellFormed(epoch) && Enumerates(l, epoch)
    requires K.Answers(p, Meaning(e, EpochArgs(e, epoch.cidrMode, l)))
    ensures Serves(p, epoch)
  {
    hide K.Answers, K.DirectMeans, P.BypassDirect, Meaning, EpochArgs, P.WellFormed, Enumerates;
    forall d, direct | K.DirectMeans(p, PacketTo(d), direct) ensures direct == P.BypassDirect(epoch, d) {
      PublishedAnswersEpoch(e, epoch, l, p, d, direct);
    }
  }

  /** Nothing in an epoch within the caps is refused by validation. */
  lemma EpochIsAcceptable(e: Endian, mode: P.CidrMode, l: Listing)
    requires LengthsFit(l) && WithinCaps(l)
    ensures K.Outcome(e, Encoded(e, EpochArgs(e, mode, l)), K.ALL_MEMORY) == K.OK
  {
    hide K.HeaderOf, K.RequestOf, EpochArgs, Meaning, Encoded, HeaderBytes;
    var a := EpochArgs(e, mode, l);
    var user := Encoded(e, a);
    ModeFits(e, mode, l);
    DecodeOfEncode(e, a, []);
    assert user + [] == user;
    EncodedHeader(e, a);
    EpochMeaning(e, mode, l);
    var r := K.RequestOf(e, user);
    assert forall i :: 0 <= i < |r.v4| ==> GoodPrefix(32, r.v4[i]);
    assert forall i :: 0 <= i < |r.v6| ==> GoodPrefix(128, r.v6[i]);
  }

  /** kmod_set_bypass, the caps of LoadedModule::set_bypass, and the ioctl. */
  method KmodSetBypass(e: Endian, dev: K.BypassModule, epoch: P.PolicyEpoch, l: Listing, mem: K.Memory)
    returns (r: PublishResult)
    requires P.WellFormed(epoch) && Enumerates(l, epoch)
    modifies dev
    ensures r.InvalidInput? <==> !WithinCaps(l)
    ensures !r.Accepted? ==> dev.live == old(dev.live)
    ensures r.Accepted? ==> dev.live != null && fresh(dev.live) && dev.live.Valid() && Serves(dev.live.Value(), epoch)
    ensures WithinCaps(l) && mem == K.ALL_MEMORY ==> r.Accepted?
  {
    hide EpochArgs, Meaning, K.Answers, Serves, K.Outcome, K.HeaderOf, K.RequestOf, P.WellFormed, Encoded, HeaderBytes;
    if !WithinCaps(l) {
      return InvalidInput;
    }
    var a := EpochArgs(e, epoch.cidrMode, l);
    var buf := EncodeBypass(e, a);
    ModeFits(e, epoch.cidrMode, l);
    DecodeOfEncode(e, a, []);
    assert buf + [] == buf;
    ListingFits(epoch, l);
    EncodedHeader(e, a);
    EpochIsAcceptable(e, epoch.cidrMode, l);
    var err := dev.SetBypass(e, buf, mem);
    if err != K.OK {
      return Refused(err);
    }
    AnswersServes(e, epoch, l, dev.live.Value());
    return Accepted;
  }

  lemma ModeFits(e: Endian, mode: P.CidrMode, l: Listing)
    requires WithinCaps(l)
    ensures Counted(EpochArgs(e, mode, l)) && EpochArgs(e, mode, l).cidrMode == ModeNumber(mode)
  {
  }

  lemma EncodedHeader(e: Endian, a: Args)
    requires Counted(a)
    ensures |Encoded(e, a)| >= 20
    ensures K.HeaderOf(e, Encoded(e, a)) == K.Header(a.cidrMode, |a.v4|, |a.v6|, |a.self4|, |a.self6|)
  {
    hide HeaderBytes, K.HeaderOf;
    assert HeaderBytes(e, a) <= Encoded(e, a);
    HeaderRoundTrip(e, a, Encoded(e, a));
  }

  /** Publishing any epoch within the caps and asking for any destination gives
      the epoch's verdict. */
  method PublishThenProbe(e: Endian, epoch: P.PolicyEpoch, l: Listing, d: P.Dest) returns (direct: bool)
    requires P.WellFormed(epoch) && Enumerates(l, epoch) && WithinCaps(l)
    ensures direct == P.BypassDirect(epoch, d)
  {
    var dev := new K.BypassModule();
    var r := KmodSetBypass(e, dev, epoch, l, K.ALL_MEMORY);
    direct := dev.PolicyDirect(e, PacketTo(d));
  }
}
