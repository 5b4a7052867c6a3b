/** bypass_hit: the verdict of the BPF programs over LPM tries and exact-match maps,
    against the policy epoch that a bank was loaded with. */
module BpfBypass {
  import opened Words
  import opened Wrappers
  import opened PrefixIndex
  import opened EpochPublish
  import K = BypassKernel
  import P = PolicyEpochs

  datatype LpmKey = LpmKey(prefixlen: nat, addr: Bytes)

  type Trie = map<LpmKey, nat>

  /** One of the two policy banks. */
  datatype Bank = Bank(v4: Trie, v6: Trie, self4: set<Bytes>, self6: set<Bytes>)

  datatype Control = Control(policyBank: nat, cidrMode: nat)

  // The first bits of four octets, as the tries compare them.
  const FOUR: Family<Bytes> :=
    Family(32, MemLess, (a, len) => if len <= 32 then K.MaskV6(a, ByteOf(len)) else a)

  predicate Matches(f: Family<Bytes>, k: LpmKey, addr: Bytes) {
    k.prefixlen <= f.width && f.mask(k.addr, k.prefixlen) == f.mask(addr, k.prefixlen)
  }

  /** What a lookup in an LPM trie answers: the value of a longest matching key. */
  ghost predicate Answers(f: Family<Bytes>, t: Trie, addr: Bytes, found: Option<nat>) {
    if found.None? then forall k :: k in t ==> !Matches(f, k, addr)
    else exists k :: k in t && Matches(f, k, addr) && t[k] == found.value
                     && forall j :: j in t && Matches(f, j, addr) ==> j.prefixlen <= k.prefixlen
  }

  function TagHit(cidrMode: nat, found: Option<nat>): bool {
    var tag := if found.Some? then found.value else 0;
    if tag == RESERVED then true
    else if cidrMode == K.CIDR_WHITELIST then tag == 0
    else tag != 0
  }

  /** bypass_hit may answer `hit`. */
  ghost predicate BypassHit(c: Option<Control>, bank0: Bank, bank1: Bank, d: P.Dest, hit: bool) {
    if c.None? then hit
    else
      var bank := if c.value.policyBank != 0 then bank1 else bank0;
      match d
      case V4(a) =>
        if Octets4(a) in bank.self4 then hit
        else exists found :: Answers(FOUR, bank.v4, Octets4(a), found) && hit == TagHit(c.value.cidrMode, found)
      case V6(a) =>
        if Octets16(a) in bank.self6 then hit
        else exists found :: Answers(K.V6, bank.v6, Octets16(a), found) && hit == TagHit(c.value.cidrMode, found)
  }

  // --------------------------------------------------------- a bank of an epoch

  function ToLpmKey<A>(conv: A -> Bytes, c: P.Cidr<A>): LpmKey {
    LpmKey(c.len, conv(c.addr))
  }

  ghost predicate Loaded<A(!new)>(conv: A -> Bytes, t: Trie, m: map<P.Cidr<A>, P.BypassTag>) {
    && (forall c :: c in m ==> ToLpmKey(conv, c) in t && t[ToLpmKey(conv, c)] == TagNumber(m[c]))
    && (forall k :: k in t ==> exists c :: c in m && k == ToLpmKey(conv, c))
  }

  /** The bank holds the keys and octets of the epoch and nothing else. */
  ghost predicate Holds(b: Bank, e: P.PolicyEpoch) {
    && Loaded(AS_FOUR, b.v4, e.bypassV4) && Loaded(AS_OCTETS, b.v6, e.bypassV6)
    && (forall a :: Octets4(a) in b.self4 <==> a in e.selfV4)
    && (forall a :: Octets16(a) in b.self6 <==> a in e.selfV6)
  }

  const AS_FOUR: bv32 -> Bytes := (a: bv32) => Octets4(a)

  /** Four masked bytes, read as one word, are the masked word. */
  lemma MaskedFour(b: Bytes, c: Bytes, plen: bv8)
    requires |b| == |c| == 4 && plen <= 32
    requires c[0] == b[0] & ByteMask(0, plen) && c[1] == b[1] & ByteMask(1, plen)
    requires c[2] == b[2] & ByteMask(2, plen) && c[3] == b[3] & ByteMask(3, plen)
    ensures Be32(c) == Be32(b) & P.Mask32(plen)
  {
  }

  lemma MaskFourByte(addr: Bytes, plen: bv8, i: nat, k: bv8)
    requires |addr| == 4 && i < 4 && k as nat == i
    ensures K.MaskV6(addr, plen)[i] == addr[i] & ByteMask(k, plen)
  {
    var full := plen / 8;
    assert i < full as nat <==> k < full;
  }

  lemma SmallLength(x: bv8)
    requires x as nat <= 32
    ensures x <= 32
  {
  }

  lemma MasksByName4(len: nat)
    requires len <= 32
    ensures forall b :: FOUR.mask(b, len) == K.MaskV6(b, ByteOf(len))
    ensures forall a :: P.V4_SPACE.mask(a, len) == a & P.Mask32(ByteOf(len))
  {
    hide K.MaskV6, P.Mask32, ByteOf;
  }

  lemma MasksCommute4(a: bv32, len: nat)
    requires len <= 32
    ensures FOUR.mask(Octets4(a), len) == Octets4(P.V4_SPACE.mask(a, len))
  {
    hide Octets4, Be32, K.MaskV6, P.Mask32, ByteOf, ByteMask, FOUR, P.V4_SPACE;
    var plen, b := ByteOf(len), Octets4(a);
    ByteRoundTrip(len);
    SmallLength(plen);
    MaskFourByte(b, plen, 0, 0);
    MaskFourByte(b, plen, 1, 1);
    MaskFourByte(b, plen, 2, 2);
    MaskFourByte(b, plen, 3, 3);
    MaskedFour(b, K.MaskV6(b, plen), plen);
    Octets4OfBe32(K.MaskV6(b, plen));
    MasksByName4(len);
  }

  lemma FourInjective(a: bv32, b: bv32)
    requires Octets4(a) == Octets4(b)
    ensures a == b
  {
    hide Octets4, Be32;
    assert Be32(Octets4(a)) == a && Be32(Octets4(b)) == b;
  }

  lemma FourEmbed()
    ensures Embeds(P.V4_SPACE, FOUR, AS_FOUR)
  {
    assert P.V4_SPACE.width == FOUR.width;
    hide Octets4, FOUR, P.V4_SPACE;
    forall a, len: nat | len <= 32
      ensures FOUR.mask(AS_FOUR(a), len) == AS_FOUR(P.V4_SPACE.mask(a, len))
    {
      MasksCommute4(a, len);
    }
    forall a, b | AS_FOUR(a) == AS_FOUR(b) ensures a == b {
      FourInjective(a, b);
    }
  }

  // ------------------------------------------------------------------- verdict

  function NumberOf(tag: Option<P.BypassTag>): Option<nat> {
    if tag.Some? then Some(TagNumber(tag.value)) else None
  }

  lemma MatchesIsIn<A(!new)>(sp: P.Space<A>, f: Family<Bytes>, conv: A -> Bytes, c: P.Cidr<A>, addr: A)
    requires Embeds(sp, f, conv) && P.Canonical(sp, c)
    ensures Matches(f, ToLpmKey(conv, c), conv(addr)) <==> P.In(sp, c, addr)
  {
  }

  /** A loaded trie has one answer, the policy's longest-prefix match. */
  lemma TrieIsLpm<A(!new)>(
    sp: P.Space<A>, f: Family<Bytes>, conv: A -> Bytes, t: Trie, m: map<P.Cidr<A>, P.BypassTag>,
    addr: A, found: Option<nat>)
    requires Embeds(sp, f, conv) && Loaded(conv, t, m) && forall c :: c in m ==> P.Canonical(sp, c)
    ensures Answers(f, t, conv(addr), found) <==> found == NumberOf(P.Lpm(sp, m, addr))
  {
    hide Embeds, P.LongestFrom, Matches, P.In;
    forall c | c in m
      ensures Matches(f, ToLpmKey(conv, c), conv(addr)) <==> P.In(sp, c, addr)
      ensures c.len <= sp.width
    {
      MatchesIsIn(sp, f, conv, c, addr);
    }
    var best := P.LongestFrom(sp, m, addr, sp.width);
    forall c | c in m && P.In(sp, c, addr)
      ensures best.Some? && c.len <= best.value.len && (c.len == best.value.len ==> c == best.value)
    {
      P.LongestFromIsLongest(sp, m, addr, sp.width, c);
    }
    if best.Some? {
      var key := ToLpmKey(conv, best.value);
      forall j | j in t && Matches(f, j, conv(addr))
        ensures j.prefixlen <= key.prefixlen && (j.prefixlen == key.prefixlen ==> j == key)
      {
        var c :| c in m && j == ToLpmKey(conv, c);
      }
      assert key in t && Matches(f, key, conv(addr));
    } else {
      forall j | j in t ensures !Matches(f, j, conv(addr)) {
        var c :| c in m && j == ToLpmKey(conv, c);
      }
    }
  }

  lemma TagTablesAgree(mode: P.CidrMode, tag: Option<P.BypassTag>)
    ensures TagHit(ModeNumber(mode), NumberOf(tag)) == P.TagDirect(mode, tag)
  {
  }

  /** The BPF verdict under a control leaf is bypass_direct of the epoch its bank holds,
      in the mode of the leaf, for every destination. */
  lemma BpfAgrees(c: Control, mode: P.CidrMode, bank0: Bank, bank1: Bank, e: P.PolicyEpoch, d: P.Dest, hit: bool)
    requires c.cidrMode == ModeNumber(mode) && P.WellFormed(e)
    requires Holds(if c.policyBank != 0 then bank1 else bank0, e)
    ensures BypassHit(Some(c), bank0, bank1, d, hit) <==> hit == P.BypassDirect(e.(cidrMode := mode), d)
  {
    hide Octets4, Octets16, P.Lpm, P.WellFormed, Answers, TagHit, P.TagDirect, Loaded, FOUR;
    var bank := if c.policyBank != 0 then bank1 else bank0;
    Canonical4(e);
    Canonical6(e);
    match d
    case V4(a) =>
      FourEmbed();
      var tag := P.Lpm(P.V4_SPACE, e.bypassV4, a);
      TagTablesAgree(mode, tag);
      forall found ensures Answers(FOUR, bank.v4, Octets4(a), found) <==> found == NumberOf(tag) {
        TrieIsLpm(P.V4_SPACE, FOUR, AS_FOUR, bank.v4, e.bypassV4, a, found);
      }
    case V6(a) =>
      OctetsEmbed();
      var tag := P.Lpm(P.V6_SPACE, e.bypassV6, a);
      TagTablesAgree(mode, tag);
      forall found ensures Answers(K.V6, bank.v6, Octets16(a), found) <==> found == NumberOf(tag) {
        TrieIsLpm(P.V6_SPACE, K.V6, AS_OCTETS, bank.v6, e.bypassV6, a, found);
      }
  }

  /** So the module and the BPF programs, each serving the same epoch, never disagree. */
  lemma ModuleAgreesWithBpf(
    c: Control, bank0: Bank, bank1: Bank, p: K.Published, e: P.PolicyEpoch, d: P.Dest, direct: bool, hit: bool)
    requires c.cidrMode == ModeNumber(e.cidrMode) && P.WellFormed(e)
    requires Holds(if c.policyBank != 0 then bank1 else bank0, e) && Serves(p, e)
    requires K.DirectMeans(p, PacketTo(d), direct) && BypassHit(Some(c), bank0, bank1, d, hit)
    ensures direct == hit
  {
    hide Holds, K.DirectMeans, BypassHit, P.BypassDirect;
    BpfAgrees(c, e.cidrMode, bank0, bank1, e, d, hit);
    assert e.(cidrMode := e.cidrMode) == e;
  }
}
