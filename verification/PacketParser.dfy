/** parse_pkt: the one bounded decoder of IPv4 (section 3.1 of RFC 791) and IPv6
    with extension headers (section 4 of RFC 8200). `head` is the linear part of
    the packet and `len` its whole length. */
module PacketParser {
  import opened Wrappers

  const ETH_P_IP: nat := 0x0800
  const ETH_P_IPV6: nat := 0x86DD
  const ETH_HLEN: nat := 14

  const HOPOPTS: nat := 0
  const TCP: nat := 6
  const UDP: nat := 17
  const ROUTING: nat := 43
  const FRAGMENT: nat := 44
  const DSTOPTS: nat := 60

  const MAX_EXT_HDRS: nat := 4
  const MAX_EXT_BYTES: nat := 256
  const MAX_PULL_BYTES: nat := ETH_HLEN + 40 + MAX_EXT_BYTES + 20

  /** struct flux_pkt. */
  datatype Pkt = Pkt(family: nat, l4proto: nat, fragment: bool, haveL4: bool, l4off: nat,
                     syn: bool, ack: bool, daddr: seq<Byte>)

  function FragmentOf(family: nat, daddr: seq<Byte>): Pkt {
    Pkt(family, 0, true, false, 0, false, false, daddr)
  }

  function Be16(head: seq<Byte>, i: nat): nat
    requires i + 2 <= |head|
  {
    Octet(head, i) * 256 + Octet(head, i + 1)
  }

  function Octet(head: seq<Byte>, i: nat): nat
    requires i < |head|
  {
    head[i]
  }

  /** The size an extension header at `off` announces. */
  function ExtSize(head: seq<Byte>, off: nat): nat
    requires off + 2 <= |head|
  {
    (Octet(head, off + 1) + 1) * 8
  }

  predicate IsL4(proto: nat) {
    proto == TCP || proto == UDP
  }

  predicate IsExtension(proto: nat) {
    proto == HOPOPTS || proto == ROUTING || proto == DSTOPTS
  }

  predicate Fits(start: nat, size: nat, l3End: nat, head: seq<Byte>) {
    start + size <= l3End && start + size <= |head|
  }

  /** More fragments set, or a fragment offset. */
  predicate IsFragment4(frag: nat) {
    frag % 0x2000 != 0 || frag / 0x2000 % 2 == 1
  }

  function ParseL4(head: seq<Byte>, family: nat, daddr: seq<Byte>, proto: nat, off: nat, l3End: nat): Option<Pkt> {
    if proto == TCP then
      if !Fits(off, 20, l3End, head) then None
      else Some(Pkt(family, proto, false, true, off, head[off + 13] / 2 % 2 == 1, head[off + 13] / 16 % 2 == 1, daddr))
    else if proto == UDP then
      if !Fits(off, 8, l3End, head) then None
      else Some(Pkt(family, proto, false, true, off, false, false, daddr))
    else None
  }

  function Parse4(nh: nat, head: seq<Byte>, len: nat): Option<Pkt> {
    if nh + 20 > |head| || head[nh] / 16 != 4 then None
    else
      var ihl := head[nh] % 16 * 4;
      var total := Be16(head, nh + 2);
      var daddr := head[nh + 16..nh + 20];
      if ihl < 20 || total < ihl || nh + total > len then None
      else if IsFragment4(Be16(head, nh + 6)) then Some(FragmentOf(4, daddr))
      else ParseL4(head, 4, daddr, head[nh + 9], nh + ihl, nh + total)
  }

  datatype Walked = Lost | AtFragment | AtL4(proto: nat, off: nat)

  datatype Round = Stop(result: Walked) | Hop(nexthdr: nat, off: nat, ext: nat)

  /** One round of the extension header loop; `last` says that none is left. */
  function OneRound(head: seq<Byte>, l3End: nat, last: bool, nexthdr: nat, off: nat, ext: nat): Round {
    if IsL4(nexthdr) then Stop(AtL4(nexthdr, off))
    else if last then Stop(Lost)
    else if nexthdr == FRAGMENT then Stop(if Fits(off, 8, l3End, head) then AtFragment else Lost)
    else if !IsExtension(nexthdr) || !Fits(off, 2, l3End, head) then Stop(Lost)
    else
      var size := ExtSize(head, off);
      if ext + size > MAX_EXT_BYTES || off + size > l3End then Stop(Lost)
      else Hop(Octet(head, off), off + size, ext + size)
  }

  /** The extension header loop from its i-th round on. */
  function Walk(head: seq<Byte>, l3End: nat, i: nat, nexthdr: nat, off: nat, ext: nat): Walked
    requires i <= MAX_EXT_HDRS
    decreases MAX_EXT_HDRS - i
  {
    var r := OneRound(head, l3End, i == MAX_EXT_HDRS, nexthdr, off, ext);
    if i == MAX_EXT_HDRS || r.Stop? then if r.Stop? then r.result else Lost
    else Walk(head, l3End, i + 1, r.nexthdr, r.off, r.ext)
  }

  lemma WalkRound(head: seq<Byte>, l3End: nat, i: nat, nexthdr: nat, off: nat, ext: nat)
    requires i <= MAX_EXT_HDRS
    ensures var r := OneRound(head, l3End, i == MAX_EXT_HDRS, nexthdr, off, ext);
            && (r.Hop? ==> i < MAX_EXT_HDRS)
            && Walk(head, l3End, i, nexthdr, off, ext) ==
                 if r.Stop? then r.result else Walk(head, l3End, i + 1, r.nexthdr, r.off, r.ext)
  {
  }

  function Parse6(nh: nat, head: seq<Byte>, len: nat): Option<Pkt> {
    if nh + 40 > |head| || head[nh] / 16 != 6 then None
    else
      var payload := Be16(head, nh + 4);
      var daddr := head[nh + 24..nh + 40];
      if payload == 0 || nh + 40 + payload > len then None
      else
        match Walk(head, nh + 40 + payload, 0, head[nh + 6], nh + 40, 0)
        case Lost => None
        case AtFragment => Some(FragmentOf(6, daddr))
        case AtL4(proto, off) => ParseL4(head, 6, daddr, proto, off, nh + 40 + payload)
  }

  function Parse(ethertype: nat, nh: nat, head: seq<Byte>, len: nat): Option<Pkt> {
    if ethertype == ETH_P_IP then Parse4(nh, head, len)
    else if ethertype == ETH_P_IPV6 then Parse6(nh, head, len)
    else None
  }

  // -------------------------------------------------------------- the C code

  method ParseTransport(head: seq<Byte>, family: nat, daddr: seq<Byte>, proto: nat, off: nat, l3End: nat)
      returns (p: Option<Pkt>)
    ensures p == ParseL4(head, family, daddr, proto, off, l3End)
  {
    if proto == TCP {
      if off + 20 > l3End {
        return None;
      }
      if off + 20 > |head| {
        return None;
      }
      var flags := head[off + 13];
      return Some(Pkt(family, TCP, false, true, off, flags / 2 % 2 == 1, flags / 16 % 2 == 1, daddr));
    } else if proto == UDP {
      if off + 8 > l3End {
        return None;
      }
      if off + 8 > |head| {
        return None;
      }
      return Some(Pkt(family, UDP, false, true, off, false, false, daddr));
    }
    return None;
  }

  /** The extension header loop of the IPv6 branch. */
  method WalkExtensions(head: seq<Byte>, l3End: nat, first: nat, start: nat) returns (w: Walked)
    ensures w == Walk(head, l3End, 0, first, start, 0)
  {
    hide Walk;
    var nexthdr: nat, off: nat, ext: nat, i := first, start, 0, 0;
    while i < MAX_EXT_HDRS && !IsL4(nexthdr)
      invariant i <= MAX_EXT_HDRS
      invariant Walk(head, l3End, 0, first, start, 0) == Walk(head, l3End, i, nexthdr, off, ext)
    {
      WalkRound(head, l3End, i, nexthdr, off, ext);
      if nexthdr == FRAGMENT {
        if off + 8 > l3End || off + 8 > |head| {
          return Lost;
        }
        return AtFragment;
      }
      if nexthdr != HOPOPTS && nexthdr != ROUTING && nexthdr != DSTOPTS {
        return Lost;
      }
      if off + 2 > l3End || off + 2 > |head| {
        return Lost;
      }
      var size := ExtSize(head, off);
      ext := ext + size;
      if ext > MAX_EXT_BYTES || off + size > l3End {
        return Lost;
      }
      nexthdr := Octet(head, off);
      off := off + size;
      i := i + 1;
    }
    WalkRound(head, l3End, i, nexthdr, off, ext);
    return if IsL4(nexthdr) then AtL4(nexthdr, off) else Lost;
  }

  method ParseIpv6(nh: nat, head: seq<Byte>, len: nat) returns (p: Option<Pkt>)
    ensures p == Parse6(nh, head, len)
  {
    hide Walk;
    if nh + 40 > |head| || head[nh] / 16 != 6 {
      return None;
    }
    var payload := Be16(head, nh + 4);
    if payload == 0 || nh + 40 + payload > len {
      return None;
    }
    var daddr := head[nh + 24..nh + 40];
    var w := WalkExtensions(head, nh + 40 + payload, head[nh + 6], nh + 40);
    if w.Lost? {
      return None;
    }
    if w.AtFragment? {
      return Some(FragmentOf(6, daddr));
    }
    p := ParseTransport(head, 6, daddr, w.proto, w.off, nh + 40 + payload);
  }

  method ParsePkt(ethertype: nat, nh: nat, head: seq<Byte>, len: nat) returns (p: Option<Pkt>)
    ensures p == Parse(ethertype, nh, head, len)
  {
    if ethertype == ETH_P_IP {
      if nh + 20 > |head| || head[nh] / 16 != 4 {
        return None;
      }
      var ihl := head[nh] % 16 * 4;
      if ihl < 20 || ihl > 60 {
        return None;
      }
      var total := Be16(head, nh + 2);
      if total < ihl || nh + total > len {
        return None;
      }
      var l3End := nh + total;
      if nh + ihl > l3End {
        return None;
      }
      var daddr := head[nh + 16..nh + 20];
      if IsFragment4(Be16(head, nh + 6)) {
        return Some(FragmentOf(4, daddr));
      }
      p := ParseTransport(head, 4, daddr, head[nh + 9], nh + ihl, l3End);
    } else if ethertype == ETH_P_IPV6 {
      p := ParseIpv6(nh, head, len);
    } else {
      return None;
    }
  }

  // ------------------------------------------------------------ what it means

  /** Results are exclusive: nothing, a fragment without L4, or a whole TCP or UDP
      header inside the packet's protocol length. */
  lemma ResultsAreExclusive(ethertype: nat, nh: nat, head: seq<Byte>, len: nat)
    ensures var p := Parse(ethertype, nh, head, len);
            p.Some? ==>
              && p.value.family == (if ethertype == ETH_P_IP then 4 else 6)
              && |p.value.daddr| == (if ethertype == ETH_P_IP then 4 else 16)
              && p.value.fragment != p.value.haveL4
              && (p.value.haveL4 ==> IsL4(p.value.l4proto) && p.value.l4off + 8 <= |head|)
              && (p.value.haveL4 && p.value.l4proto == TCP ==> p.value.l4off + 20 <= |head|)
              && (p.value.fragment ==> p.value.l4proto == 0)
  {
    hide Walk, IsFragment4;
  }

  /** lens are the sizes of consecutive extension headers from (nexthdr, off) to
      (target, end). */
  ghost predicate Chain(head: seq<Byte>, nexthdr: nat, off: nat, lens: seq<nat>, target: nat, end: nat)
    decreases |lens|
  {
    if lens == [] then nexthdr == target && off == end
    else
      && IsExtension(nexthdr) && off + 2 <= |head| && lens[0] == ExtSize(head, off)
      && Chain(head, head[off], off + lens[0], lens[1..], target, end)
  }

  function Sum(lens: seq<nat>): nat {
    if lens == [] then 0 else lens[0] + Sum(lens[1..])
  }

  /** The walk reaches L4 exactly when a chain of at most `room` extension headers
      within the byte limit does, inside the protocol length. */
  ghost predicate L4Chain(
    head: seq<Byte>, l3End: nat, nexthdr: nat, off: nat, room: nat, bytes: nat, proto: nat, end: nat, lens: seq<nat>)
  {
    |lens| <= room && Sum(lens) <= bytes && Chain(head, nexthdr, off, lens, proto, end)
    && (lens != [] ==> end <= l3End)
  }

  ghost predicate FragmentChain(
    head: seq<Byte>, l3End: nat, nexthdr: nat, off: nat, room: nat, bytes: nat, end: nat, lens: seq<nat>)
  {
    |lens| < room && Sum(lens) <= bytes && Chain(head, nexthdr, off, lens, FRAGMENT, end)
    && Fits(end, 8, l3End, head)
  }

  lemma {:induction false} ChainGrows(head: seq<Byte>, nexthdr: nat, off: nat, lens: seq<nat>, target: nat, end: nat)
    requires Chain(head, nexthdr, off, lens, target, end)
    ensures end == off + Sum(lens)
    ensures lens != [] ==> lens[0] >= 8
    decreases |lens|
  {
    if lens != [] {
      ChainGrows(head, head[off], off + lens[0], lens[1..], target, end);
    }
  }

  /** From one place a chain leads to only one header that is no extension. */
  lemma {:induction false} ChainUnique(
    head: seq<Byte>, nexthdr: nat, off: nat, lens: seq<nat>, target: nat, end: nat, lens': seq<nat>, target': nat, end': nat)
    requires Chain(head, nexthdr, off, lens, target, end) && Chain(head, nexthdr, off, lens', target', end')
    requires !IsExtension(target) && !IsExtension(target')
    ensures lens == lens' && target == target' && end == end'
    decreases |lens|
  {
    if lens != [] && lens' != [] {
      ChainUnique(head, head[off], off + lens[0], lens[1..], target, end, lens'[1..], target', end');
    }
  }

  lemma {:induction false} WalkFollowsChain(
    head: seq<Byte>, l3End: nat, i: nat, nexthdr: nat, off: nat, ext: nat, target: nat, end: nat, lens: seq<nat>)
    requires i <= MAX_EXT_HDRS && ext <= MAX_EXT_BYTES
    requires IsL4(target) ==>
               L4Chain(head, l3End, nexthdr, off, MAX_EXT_HDRS - i, MAX_EXT_BYTES - ext, target, end, lens)
    requires !IsL4(target) ==>
               target == FRAGMENT
               && FragmentChain(head, l3End, nexthdr, off, MAX_EXT_HDRS - i, MAX_EXT_BYTES - ext, end, lens)
    ensures Walk(head, l3End, i, nexthdr, off, ext) == if IsL4(target) then AtL4(target, end) else AtFragment
    decreases |lens|
  {
    hide Walk;
    WalkRound(head, l3End, i, nexthdr, off, ext);
    ChainGrows(head, nexthdr, off, lens, target, end);
    if lens != [] {
      WalkFollowsChain(head, l3End, i + 1, head[off], off + lens[0], ext + lens[0], target, end, lens[1..]);
    }
  }

  lemma {:induction false} WalkFindsChain(head: seq<Byte>, l3End: nat, i: nat, nexthdr: nat, off: nat, ext: nat)
      returns (end: nat, lens: seq<nat>)
    requires i <= MAX_EXT_HDRS && ext <= MAX_EXT_BYTES
    ensures var w := Walk(head, l3End, i, nexthdr, off, ext);
            && (w.AtL4? ==>
                  && IsL4(w.proto) && end == w.off
                  && L4Chain(head, l3End, nexthdr, off, MAX_EXT_HDRS - i, MAX_EXT_BYTES - ext, w.proto, end, lens))
            && (w.AtFragment? ==> FragmentChain(head, l3End, nexthdr, off, MAX_EXT_HDRS - i, MAX_EXT_BYTES - ext, end, lens))
    decreases MAX_EXT_HDRS - i
  {
    hide Walk;
    WalkRound(head, l3End, i, nexthdr, off, ext);
    end, lens := off, [];
    var r := OneRound(head, l3End, i == MAX_EXT_HDRS, nexthdr, off, ext);
    if r.Hop? {
      var tail;
      end, tail := WalkFindsChain(head, l3End, i + 1, r.nexthdr, r.off, r.ext);
      lens := [r.off - off] + tail;
      assert lens[1..] == tail;
    }
  }

  /** parse_pkt finds TCP or UDP behind IPv6 extension headers exactly when such a
      chain exists: at most four headers, at most 256 bytes. */
  lemma L4ExactlyBehindChain(head: seq<Byte>, l3End: nat, nexthdr: nat, off: nat, proto: nat, end: nat)
    requires IsL4(proto)
    ensures Walk(head, l3End, 0, nexthdr, off, 0) == AtL4(proto, end)
       <==> exists lens :: L4Chain(head, l3End, nexthdr, off, MAX_EXT_HDRS, MAX_EXT_BYTES, proto, end, lens)
  {
    hide Walk, L4Chain, FragmentChain;
    if lens :| L4Chain(head, l3End, nexthdr, off, MAX_EXT_HDRS, MAX_EXT_BYTES, proto, end, lens) {
      WalkFollowsChain(head, l3End, 0, nexthdr, off, 0, proto, end, lens);
    }
    var e, ls := WalkFindsChain(head, l3End, 0, nexthdr, off, 0);
  }

  /** A fragment header is recognised exactly behind at most three extension headers. */
  lemma FragmentExactlyBehindChain(head: seq<Byte>, l3End: nat, nexthdr: nat, off: nat)
    ensures Walk(head, l3End, 0, nexthdr, off, 0).AtFragment?
       <==> exists end, lens :: FragmentChain(head, l3End, nexthdr, off, MAX_EXT_HDRS, MAX_EXT_BYTES, end, lens)
  {
    hide Walk, L4Chain, FragmentChain;
    if end, lens :| FragmentChain(head, l3End, nexthdr, off, MAX_EXT_HDRS, MAX_EXT_BYTES, end, lens) {
      WalkFollowsChain(head, l3End, 0, nexthdr, off, 0, FRAGMENT, end, lens);
    }
    var e, ls := WalkFindsChain(head, l3End, 0, nexthdr, off, 0);
  }

  // ------------------------------------------------------------ the pull bound

  /** What pull_headers leaves linear. */
  predicate Pulled(lin: nat, len: nat) {
    lin <= len && (lin >= MAX_PULL_BYTES || lin == len)
  }

  lemma {:induction false} WalkNeedsNoMore(bytes: seq<Byte>, lin: nat, l3End: nat, i: nat, nexthdr: nat, off: nat, ext: nat)
    requires Pulled(lin, |bytes|) && l3End <= |bytes| && i <= MAX_EXT_HDRS
    requires ext <= MAX_EXT_BYTES && off <= ETH_HLEN + 40 + ext
    ensures Walk(bytes[..lin], l3End, i, nexthdr, off, ext) == Walk(bytes, l3End, i, nexthdr, off, ext)
    ensures var w := Walk(bytes, l3End, i, nexthdr, off, ext); w.AtL4? ==> w.off <= ETH_HLEN + 40 + MAX_EXT_BYTES
    decreases MAX_EXT_HDRS - i
  {
    hide Walk;
    WalkRound(bytes, l3End, i, nexthdr, off, ext);
    WalkRound(bytes[..lin], l3End, i, nexthdr, off, ext);
    var r := OneRound(bytes, l3End, i == MAX_EXT_HDRS, nexthdr, off, ext);
    assert r == OneRound(bytes[..lin], l3End, i == MAX_EXT_HDRS, nexthdr, off, ext);
    if r.Hop? {
      WalkNeedsNoMore(bytes, lin, l3End, i + 1, r.nexthdr, r.off, r.ext);
    }
  }

  lemma L4NeedsNoMore(bytes: seq<Byte>, lin: nat, family: nat, daddr: seq<Byte>, proto: nat, off: nat, l3End: nat)
    requires Pulled(lin, |bytes|) && l3End <= |bytes| && off + 20 <= MAX_PULL_BYTES
    ensures ParseL4(bytes[..lin], family, daddr, proto, off, l3End) == ParseL4(bytes, family, daddr, proto, off, l3End)
  {
  }

  /** 330 bytes suffice: after the pull, every packet parses as if it were linear
      throughout, on both the Ethernet and the raw-IP path. */
  lemma PullBoundSuffices(ethertype: nat, nh: nat, bytes: seq<Byte>, lin: nat)
    requires nh <= ETH_HLEN && Pulled(lin, |bytes|)
    ensures Parse(ethertype, nh, bytes[..lin], |bytes|) == Parse(ethertype, nh, bytes, |bytes|)
  {
    hide Walk, ParseL4, IsFragment4;
    if ethertype == ETH_P_IP && nh + 20 <= lin && nh + Be16(bytes, nh + 2) <= |bytes| {
      L4NeedsNoMore(bytes, lin, 4, bytes[nh + 16..nh + 20], bytes[nh + 9],
                    nh + bytes[nh] % 16 * 4, nh + Be16(bytes, nh + 2));
      assert bytes[..lin][nh + 16..nh + 20] == bytes[nh + 16..nh + 20];
    } else if ethertype == ETH_P_IPV6 && nh + 40 <= lin && nh + 40 + Be16(bytes, nh + 4) <= |bytes| {
      var l3End := nh + 40 + Be16(bytes, nh + 4);
      WalkNeedsNoMore(bytes, lin, l3End, 0, bytes[nh + 6], nh + 40, 0);
      assert bytes[..lin][nh + 24..nh + 40] == bytes[nh + 24..nh + 40];
      var w := Walk(bytes, l3End, 0, bytes[nh + 6], nh + 40, 0);
      if w.AtL4? {
        L4NeedsNoMore(bytes, lin, 6, bytes[nh + 24..nh + 40], w.proto, w.off, l3End);
      }
    }
  }

  /** A full-size IPv6 TCP packet: one 256-byte hop-by-hop header. */
  function Widest(): (t: seq<Byte>)
    ensures |t| == MAX_PULL_BYTES
  {
    seq(MAX_PULL_BYTES, i requires 0 <= i =>
      if i == 14 then 0x60 else if i == 18 then 1 else if i == 19 then 20
      else if i == 54 then TCP else if i == 55 then 31 else 0)
  }

  /** One byte less does not suffice. */
  lemma PullBoundIsTight(lin: nat)
    requires lin < MAX_PULL_BYTES
    ensures Parse(ETH_P_IPV6, ETH_HLEN, Widest(), MAX_PULL_BYTES).Some?
    ensures Parse(ETH_P_IPV6, ETH_HLEN, Widest()[..lin], MAX_PULL_BYTES).None?
  {
    var t := Widest();
    assert t[14] == 0x60 && t[18] == 1 && t[19] == 20 && t[20] == HOPOPTS && t[54] == TCP && t[55] == 31;
    assert Walk(t, MAX_PULL_BYTES, 1, TCP, 310, 256) == AtL4(TCP, 310);
    assert Walk(t, MAX_PULL_BYTES, 0, HOPOPTS, 54, 0) == AtL4(TCP, 310);
    var h := t[..lin];
    if lin >= 56 {
      assert h[14] == 0x60 && h[18] == 1 && h[19] == 20 && h[20] == HOPOPTS && h[54] == TCP && h[55] == 31;
      assert Walk(h, MAX_PULL_BYTES, 1, TCP, 310, 256) == AtL4(TCP, 310);
      assert Walk(h, MAX_PULL_BYTES, 0, HOPOPTS, 54, 0) == AtL4(TCP, 310);
    } else if lin >= 54 {
      assert h[14] == 0x60 && h[18] == 1 && h[19] == 20 && h[20] == HOPOPTS;
    }
  }

  // ---------------------------------------------------------- parse_bounds.rs

  const U32_MAX: nat := 0xFFFF_FFFF

  function Saturating(n: nat): nat {
    if n > U32_MAX then U32_MAX else n
  }

  predicate HeaderFits(start: nat, size: nat, l3End: nat, dataEnd: nat) {
    start + size <= U32_MAX && start + size <= l3End && start + size <= dataEnd
  }

  predicate Ipv4LengthOk(nh: nat, total: nat, ihl: nat, len: nat) {
    total >= ihl && Saturating(nh + total) <= len
  }

  predicate Ipv6LengthOk(nh: nat, payload: nat, len: nat) {
    payload != 0 && Saturating(Saturating(nh + 40) + payload) <= len
  }

  /** The u32 table of bounds describes exactly the IPv4 packets parse_pkt accepts. */
  lemma Ipv4MatchesBoundsTable(nh: nat, head: seq<Byte>, len: nat)
    requires nh <= ETH_HLEN && |head| <= len <= U32_MAX
    ensures Parse4(nh, head, len).Some? <==>
              && HeaderFits(nh, 20, U32_MAX, |head|) && head[nh] / 16 == 4 && head[nh] % 16 >= 5
              && var ihl, total := head[nh] % 16 * 4, Be16(head, nh + 2);
                 && Ipv4LengthOk(nh, total, ihl, len)
                 && (|| IsFragment4(Be16(head, nh + 6))
                     || (head[nh + 9] == TCP && HeaderFits(nh + ihl, 20, nh + total, |head|))
                     || (head[nh + 9] == UDP && HeaderFits(nh + ihl, 8, nh + total, |head|)))
  {
    hide IsFragment4;
  }

  lemma Ipv6MatchesBoundsTable(nh: nat, head: seq<Byte>, len: nat)
    requires nh <= ETH_HLEN && |head| <= len <= U32_MAX
    ensures Parse6(nh, head, len).Some? <==>
              && HeaderFits(nh, 40, U32_MAX, |head|) && head[nh] / 16 == 6
              && var payload := Be16(head, nh + 4);
                 && Ipv6LengthOk(nh, payload, len)
                 && var w := Walk(head, nh + 40 + payload, 0, head[nh + 6], nh + 40, 0);
                    && !w.Lost?
                    && (w.AtL4? ==> HeaderFits(w.off, if w.proto == TCP then 20 else 8, nh + 40 + payload, |head|))
  {
    hide Walk, L4Chain, FragmentChain;
    if nh + 40 <= |head| {
      var e, ls := WalkFindsChain(head, nh + 40 + Be16(head, nh + 4), 0, head[nh + 6], nh + 40, 0);
    }
  }
}
