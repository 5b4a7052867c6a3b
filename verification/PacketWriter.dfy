/** Headers as a sender writes them (section 3.1 of RFC 791, sections 3 and 4 of RFC
    8200), and what the decoder reads back of them. */
module PacketWriter {
  import opened Wrappers
  import opened PacketParser

  /** `mid` and `high` are the flags between SYN and ACK and above ACK. */
  datatype Transport =
    | TcpHeader(front: seq<Byte>, fin: bool, syn: bool, mid: nat, ack: bool, high: nat, back: seq<Byte>)
    | UdpHeader(bytes: seq<Byte>)
    | OtherHeader(proto: Byte, bytes: seq<Byte>)

  /** A TCP header has 13 bytes before its flags and six or more after them. */
  predicate WellFormed(t: Transport) {
    match t
    case TcpHeader(front, _, _, mid, _, high, back) => |front| == 13 && mid < 4 && high < 8 && |back| >= 6
    case UdpHeader(bytes) => |bytes| >= 8
    case OtherHeader(proto, _) => !IsL4(proto) && !IsExtension(proto) && proto != FRAGMENT
  }

  function Bit(b: bool): nat {
    if b then 1 else 0
  }

  function TransportBytes(t: Transport): seq<Byte>
    requires WellFormed(t)
  {
    match t
    case TcpHeader(front, fin, syn, mid, ack, high, back) =>
      front + [Bit(fin) + 2 * Bit(syn) + 4 * mid + 16 * Bit(ack) + 32 * high] + back
    case UdpHeader(bytes) => bytes
    case OtherHeader(_, bytes) => bytes
  }

  function Protocol(t: Transport): Byte {
    match t
    case TcpHeader(_, _, _, _, _, _, _) => TCP
    case UdpHeader(_) => UDP
    case OtherHeader(proto, _) => proto
  }

  /** What the decoder should say of it. */
  function Described(family: nat, t: Transport, off: nat, dst: seq<Byte>): Option<Pkt> {
    match t
    case TcpHeader(_, _, syn, _, ack, _, _) => Some(Pkt(family, TCP, false, true, off, syn, ack, dst))
    case UdpHeader(_) => Some(Pkt(family, UDP, false, true, off, false, false, dst))
    case OtherHeader(_, _) => None
  }

  lemma FlagsReadBack(fin: bool, syn: bool, mid: nat, ack: bool, high: nat)
    requires mid < 4 && high < 8
    ensures var f := Bit(fin) + 2 * Bit(syn) + 4 * mid + 16 * Bit(ack) + 32 * high;
            f < 256 && (f / 2 % 2 == 1 <==> syn) && (f / 16 % 2 == 1 <==> ack)
  {
  }

  lemma TransportReadBack(bytes: seq<Byte>, family: nat, dst: seq<Byte>, t: Transport, off: nat, l3End: nat)
    requires WellFormed(t) && off + |TransportBytes(t)| == l3End <= |bytes|
    requires bytes[off..l3End] == TransportBytes(t)
    ensures ParseL4(bytes, family, dst, Protocol(t), off, l3End) == Described(family, t, off, dst)
  {
    if t.TcpHeader? {
      FlagsReadBack(t.fin, t.syn, t.mid, t.ack, t.high);
      assert bytes[off + 13] == bytes[off..l3End][13];
    }
  }

  // ---------------------------------------------------------------------- IPv4

  datatype V4Header = V4Header(
    tos: Byte, id: (Byte, Byte), dontFragment: bool, more: bool, offset: nat, ttl: Byte, sum: (Byte, Byte),
    src: seq<Byte>, dst: seq<Byte>, options: seq<Byte>)

  predicate Sound4(h: V4Header) {
    |h.src| == |h.dst| == 4 && |h.options| % 4 == 0 && |h.options| <= 40 && h.offset < 8192
  }

  function Write4(h: V4Header, proto: Byte, payload: seq<Byte>): seq<Byte>
    requires Sound4(h) && 20 + |h.options| + |payload| < 65536
  {
    var total := 20 + |h.options| + |payload|;
    var frag := 16384 * Bit(h.dontFragment) + 8192 * Bit(h.more) + h.offset;
    [0x45 + |h.options| / 4, h.tos, total / 256, total % 256, h.id.0, h.id.1, frag / 256, frag % 256,
     h.ttl, proto, h.sum.0, h.sum.1] + h.src + h.dst + h.options + payload
  }

  lemma FragmentReadsBack(df: bool, more: bool, offset: nat)
    requires offset < 8192
    ensures IsFragment4(16384 * Bit(df) + 8192 * Bit(more) + offset) <==> more || offset > 0
  {
    var low := 8192 * Bit(more) + offset;
    assert (16384 * Bit(df) + low) % 8192 == offset;
    assert (16384 * Bit(df) + low) / 8192 == 2 * Bit(df) + Bit(more);
  }

  /** The fields of a written header, wherever it stands. */
  lemma Fields4(link: seq<Byte>, h: V4Header, proto: Byte, payload: seq<Byte>, trailer: seq<Byte>)
    requires Sound4(h) && 20 + |h.options| + |payload| < 65536
    ensures var b, nh, total := link + Write4(h, proto, payload) + trailer, |link|, 20 + |h.options| + |payload|;
            && |b| == nh + total + |trailer| && b[nh] / 16 == 4 && b[nh] % 16 * 4 == 20 + |h.options|
            && Be16(b, nh + 2) == total && b[nh + 9] == proto && b[nh + 16..nh + 20] == h.dst
            && Be16(b, nh + 6) == 16384 * Bit(h.dontFragment) + 8192 * Bit(h.more) + h.offset
            && b[nh + 20 + |h.options|..nh + total] == payload
  {
    var w := Write4(h, proto, payload);
    var b, nh := link + w + trailer, |link|;
    assert forall k :: 0 <= k < |w| ==> b[nh + k] == w[k];
    assert b[nh + 16..nh + 20] == w[16..20] == h.dst;
    assert b[nh + 20 + |h.options|..nh + |w|] == w[20 + |h.options|..] == payload;
    assert |h.options| / 4 <= 10;
  }

  /** Every IPv4 packet that is written is read back: its destination, its protocol, the
      place of its transport header and its flags, or that it is a fragment. */
  lemma ReadBack4(link: seq<Byte>, h: V4Header, t: Transport, trailer: seq<Byte>)
    requires Sound4(h) && WellFormed(t) && 20 + |h.options| + |TransportBytes(t)| < 65536
    ensures var b := link + Write4(h, Protocol(t), TransportBytes(t)) + trailer;
            Parse(ETH_P_IP, |link|, b, |b|) ==
              if h.more || h.offset > 0 then Some(FragmentOf(4, h.dst))
              else Described(4, t, |link| + 20 + |h.options|, h.dst)
  {
    var b := link + Write4(h, Protocol(t), TransportBytes(t)) + trailer;
    Fields4(link, h, Protocol(t), TransportBytes(t), trailer);
    FragmentReadsBack(h.dontFragment, h.more, h.offset);
    hide Write4, TransportBytes, IsFragment4;
    var off := |link| + 20 + |h.options|;
    TransportReadBack(b, 4, h.dst, t, off, off + |TransportBytes(t)|);
    hide ParseL4;
  }

  // ---------------------------------------------------------------------- IPv6

  /** An extension header announces its size as the units of eight bytes after the first. */
  datatype Ext = Ext(kind: Byte, units: Byte, body: seq<Byte>)

  predicate SoundExt(e: Ext) {
    IsExtension(e.kind) && |e.body| == 8 * e.units + 6
  }

  predicate SoundExts(exts: seq<Ext>) {
    forall i :: 0 <= i < |exts| ==> SoundExt(exts[i])
  }

  function OneExt(e: Ext, next: Byte): (r: seq<Byte>)
    ensures |r| == |e.body| + 2
  {
    [next, e.units] + e.body
  }

  /** The first header after the fixed one. */
  function FirstOf(exts: seq<Ext>, last: Byte): Byte {
    if exts == [] then last else exts[0].kind
  }

  function ExtBytes(exts: seq<Ext>, last: Byte): seq<Byte>
    requires SoundExts(exts)
  {
    if exts == [] then [] else OneExt(exts[0], FirstOf(exts[1..], last)) + ExtBytes(exts[1..], last)
  }

  function Sizes(exts: seq<Ext>): (r: seq<nat>)
    ensures |r| == |exts|
  {
    seq(|exts|, i requires 0 <= i < |exts| => 8 * exts[i].units + 8)
  }

  /** What follows the extension headers: a transport header, or a fragment header. */
  datatype Upper = Whole(t: Transport) | Piece(bytes: seq<Byte>)

  predicate SoundUpper(u: Upper) {
    match u
    case Whole(t) => WellFormed(t)
    case Piece(bytes) => |bytes| >= 8
  }

  function UpperBytes(u: Upper): seq<Byte>
    requires SoundUpper(u)
  {
    match u
    case Whole(t) => TransportBytes(t)
    case Piece(bytes) => bytes
  }

  function UpperKind(u: Upper): Byte {
    match u
    case Whole(t) => Protocol(t)
    case Piece(_) => FRAGMENT
  }

  datatype V6Header = V6Header(
    class_: nat, flow: (Byte, Byte, Byte), hops: Byte, src: seq<Byte>, dst: seq<Byte>, exts: seq<Ext>)

  predicate Sound6(h: V6Header) {
    |h.src| == |h.dst| == 16 && h.class_ < 16 && SoundExts(h.exts)
  }

  /** The fixed header. */
  function Fixed6(h: V6Header, first: Byte, payload: nat): (r: seq<Byte>)
    requires Sound6(h) && payload < 65536
    ensures |r| == 40
  {
    [0x60 + h.class_, h.flow.0, h.flow.1, h.flow.2, payload / 256, payload % 256, first, h.hops] + h.src + h.dst
  }

  function Write6(h: V6Header, u: Upper): seq<Byte>
    requires Sound6(h) && SoundUpper(u) && |ExtBytes(h.exts, UpperKind(u))| + |UpperBytes(u)| < 65536
  {
    var exts := ExtBytes(h.exts, UpperKind(u));
    Fixed6(h, FirstOf(h.exts, UpperKind(u)), |exts| + |UpperBytes(u)|) + exts + UpperBytes(u)
  }

  /** Written extension headers are a chain of their sizes. */
  lemma {:induction false} ChainWritten(head: seq<Byte>, off: nat, exts: seq<Ext>, last: Byte)
    requires SoundExts(exts)
    requires off + |ExtBytes(exts, last)| <= |head| && head[off..off + |ExtBytes(exts, last)|] == ExtBytes(exts, last)
    ensures Chain(head, FirstOf(exts, last), off, Sizes(exts), last, off + |ExtBytes(exts, last)|)
    decreases |exts|
  {
    if exts != [] {
      var one, rest := OneExt(exts[0], FirstOf(exts[1..], last)), ExtBytes(exts[1..], last);
      var all, size := one + rest, |one|;
      assert head[off..off + |all|] == all;
      assert head[off..off + |all|][0] == head[off] && head[off..off + |all|][1] == head[off + 1];
      assert head[off + size..off + |all|] == head[off..off + |all|][size..] == rest;
      assert Sizes(exts)[1..] == Sizes(exts[1..]);
      ChainWritten(head, off + size, exts[1..], last);
      hide ExtBytes;
    }
  }

  /** Three parts between others, cut out again. */
  lemma Parts(link: seq<Byte>, fixed: seq<Byte>, exts: seq<Byte>, upper: seq<Byte>, trailer: seq<Byte>)
    ensures var b, nh, off := link + (fixed + exts + upper) + trailer, |link|, |link| + |fixed| + |exts|;
            && |b| == off + |upper| + |trailer| && b[nh..nh + |fixed|] == fixed
            && b[nh + |fixed|..off] == exts && b[off..off + |upper|] == upper
  {
  }

  /** The limits of the decoder: four extension headers of 256 bytes together, and one
      less before a fragment header. */
  predicate WithinLimits(h: V6Header, u: Upper) {
    && Sum(Sizes(h.exts)) <= MAX_EXT_BYTES
    && |h.exts| <= if u.Piece? then MAX_EXT_HDRS - 1 else MAX_EXT_HDRS
  }

  function Expected6(h: V6Header, u: Upper, off: nat): Option<Pkt> {
    if !WithinLimits(h, u) then None
    else
      match u
      case Whole(t) => Described(6, t, off, h.dst)
      case Piece(_) => Some(FragmentOf(6, h.dst))
  }

  /** The walk along any chain, in and out of its limits. */
  lemma WalkOfChain(b: seq<Byte>, l3End: nat, first: nat, off: nat, lens: seq<nat>, target: nat, end: nat)
    requires Chain(b, first, off, lens, target, end) && !IsExtension(target) && end <= l3End
    requires target == FRAGMENT ==> Fits(end, 8, l3End, b)
    ensures Walk(b, l3End, 0, first, off, 0) ==
              if Sum(lens) > MAX_EXT_BYTES then Lost
              else if |lens| > (if target == FRAGMENT then MAX_EXT_HDRS - 1 else MAX_EXT_HDRS) then Lost
              else if target == FRAGMENT then AtFragment
              else if IsL4(target) then AtL4(target, end)
              else Lost
  {
    hide Walk, Sum, Chain;
    var most := if target == FRAGMENT then MAX_EXT_HDRS - 1 else MAX_EXT_HDRS;
    if Sum(lens) <= MAX_EXT_BYTES && |lens| <= most && (IsL4(target) || target == FRAGMENT) {
      WalkFollowsChain(b, l3End, 0, first, off, 0, target, end, lens);
    } else {
      var w := Walk(b, l3End, 0, first, off, 0);
      var e, ls := WalkFindsChain(b, l3End, 0, first, off, 0);
      if w.AtL4? {
        ChainUnique(b, first, off, lens, target, end, ls, w.proto, e);
      } else if w.AtFragment? {
        ChainUnique(b, first, off, lens, target, end, ls, FRAGMENT, e);
      }
    }
  }

  /** The decoder behind a fixed header. */
  lemma ParseOfFixed6(b: seq<Byte>, nh: nat, h: V6Header, first: Byte, end: nat)
    requires Sound6(h) && nh + 40 < end <= |b| && end < nh + 40 + 65536
    requires b[nh..nh + 40] == Fixed6(h, first, end - nh - 40)
    ensures Parse(ETH_P_IPV6, nh, b, |b|) ==
              match Walk(b, end, 0, first, nh + 40, 0)
              case Lost => None
              case AtFragment => Some(FragmentOf(6, h.dst))
              case AtL4(proto, off) => ParseL4(b, 6, h.dst, proto, off, end)
  {
    hide Walk, ParseL4, SoundExts;
    var f := b[nh..nh + 40];
    assert f[0] == b[nh] && f[4] == b[nh + 4] && f[5] == b[nh + 5] && f[6] == b[nh + 6];
    assert b[nh + 24..nh + 40] == f[24..40] == h.dst;
  }

  lemma UpperKinds(u: Upper)
    requires SoundUpper(u)
    ensures !IsExtension(UpperKind(u)) && (UpperKind(u) == FRAGMENT <==> u.Piece?)
    ensures u.Piece? ==> |UpperBytes(u)| >= 8
  {
    hide TransportBytes;
  }

  function Walked6(h: V6Header, u: Upper, off: nat): Walked
    requires SoundUpper(u)
  {
    if !WithinLimits(h, u) then Lost
    else if u.Piece? then AtFragment
    else if IsL4(UpperKind(u)) then AtL4(UpperKind(u), off)
    else Lost
  }

  lemma WalkWritten6(b: seq<Byte>, at: nat, h: V6Header, u: Upper, off: nat, end: nat)
    requires SoundExts(h.exts) && SoundUpper(u) && off == at + |ExtBytes(h.exts, UpperKind(u))|
    requires off <= end <= |b| && b[at..off] == ExtBytes(h.exts, UpperKind(u)) && (u.Piece? ==> off + 8 <= end)
    ensures Walk(b, end, 0, FirstOf(h.exts, UpperKind(u)), at, 0) == Walked6(h, u, off)
  {
    hide ExtBytes, Walk, Chain, Sum, IsExtension, SoundExts, TransportBytes, FirstOf;
    UpperKinds(u);
    ChainWritten(b, at, h.exts, UpperKind(u));
    hide UpperKind, SoundUpper;
    WalkOfChain(b, end, FirstOf(h.exts, UpperKind(u)), at, Sizes(h.exts), UpperKind(u), off);
  }

  /** What is left of the decoder once the walk is known. */
  lemma LastPart6(b: seq<Byte>, h: V6Header, u: Upper, off: nat, end: nat)
    requires SoundUpper(u) && off <= end <= |b| && b[off..end] == UpperBytes(u)
    ensures Expected6(h, u, off) ==
              match Walked6(h, u, off)
              case Lost => None
              case AtFragment => Some(FragmentOf(6, h.dst))
              case AtL4(proto, o) => ParseL4(b, 6, h.dst, proto, o, end)
  {
    hide WithinLimits;
    if u.Whole? {
      TransportReadBack(b, 6, h.dst, u.t, off, end);
    }
    hide ParseL4, TransportBytes;
  }

  lemma ParseWritten6(b: seq<Byte>, nh: nat, h: V6Header, u: Upper, off: nat, end: nat)
    requires Sound6(h) && SoundUpper(u) && off == nh + 40 + |ExtBytes(h.exts, UpperKind(u))|
    requires off < end <= |b| && end < nh + 40 + 65536
    requires b[nh..nh + 40] == Fixed6(h, FirstOf(h.exts, UpperKind(u)), end - nh - 40)
    requires b[nh + 40..off] == ExtBytes(h.exts, UpperKind(u)) && b[off..end] == UpperBytes(u)
    ensures Parse(ETH_P_IPV6, nh, b, |b|) == Expected6(h, u, off)
  {
    hide ExtBytes, Fixed6, FirstOf, Walk, Walked6, Parse, ParseL4, UpperKind, SoundExts, Expected6;
    UpperKinds(u);
    hide UpperBytes;
    ParseOfFixed6(b, nh, h, FirstOf(h.exts, UpperKind(u)), end);
    WalkWritten6(b, nh + 40, h, u, off, end);
    LastPart6(b, h, u, off, end);
  }

  /** Every IPv6 packet that is written is read back in the same way behind any chain of
      extension headers within the limits, and refused behind any other. */
  lemma ReadBack6(link: seq<Byte>, h: V6Header, u: Upper, trailer: seq<Byte>)
    requires Sound6(h) && SoundUpper(u) && |UpperBytes(u)| > 0
    requires |ExtBytes(h.exts, UpperKind(u))| + |UpperBytes(u)| < 65536
    ensures var b := link + Write6(h, u) + trailer;
            Parse(ETH_P_IPV6, |link|, b, |b|) ==
              Expected6(h, u, |link| + 40 + |ExtBytes(h.exts, UpperKind(u))|)
  {
    hide ExtBytes, Fixed6, UpperBytes, UpperKind, FirstOf, Parse, SoundUpper, Expected6, SoundExts;
    var exts, upper := ExtBytes(h.exts, UpperKind(u)), UpperBytes(u);
    var fixed := Fixed6(h, FirstOf(h.exts, UpperKind(u)), |exts| + |upper|);
    Parts(link, fixed, exts, upper, trailer);
    var off := |link| + 40 + |exts|;
    ParseWritten6(link + Write6(h, u) + trailer, |link|, h, u, off, off + |upper|);
  }
}
