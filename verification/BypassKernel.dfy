/** FLUXRS_SET_BYPASS in the kernel module: the ioctl buffer is decoded,
    validated, indexed and published, and a destination is looked up. */
module BypassKernel {
  import opened Words
  import opened KernelSort
  import opened PrefixIndex

  const LPM_MAX: nat := 65536
  const SELF_MAX: nat := 256
  const CIDR_WHITELIST: nat := 1

  // ---------------------------------------------------------- address families

  function Plen4Mask(plen: bv8): bv32 {
    if plen == 0 then 0 else if plen >= 32 then 0xffff_ffff else (0xffff_ffff as bv32) << (32 - plen)
  }

  /** Byte i of mask_v6's output. */
  function MaskV6Byte(addr: Bytes, plen: bv8, i: nat): bv8
    requires i < |addr|
  {
    var full, bits := plen / 8, plen % 8;
    if i < full as nat then addr[i]
    else if i == full as nat && bits != 0 then addr[i] & ((0xff as bv8) << (8 - bits))
    else 0
  }

  function MaskV6(addr: Bytes, plen: bv8): (out: Bytes)
    ensures |out| == |addr|
  {
    seq(|addr|, i requires 0 <= i < |addr| => MaskV6Byte(addr, plen, i))
  }

  /** Unsigned comparison of two host-order words. */
  predicate Less32(a: bv32, b: bv32) {
    (a as nat) < (b as nat)
  }

  lemma WordValueInjective(a: bv32, b: bv32)
    requires a as nat == b as nat
    ensures a == b
  {
    assert (a as nat) as bv32 == a;
    assert (b as nat) as bv32 == b;
  }

  const V4: Family<bv32> :=
    Family(32, Less32, (a, len) => if len <= 32 then a & Plen4Mask(ByteOf(len)) else a)
  const V6: Family<Bytes> :=
    Family(128, MemLess, (a, len) => if len <= 128 then MaskV6(a, ByteOf(len)) else a)

  lemma MemLessOrders()
    ensures StrictTotal(MemLess)
  {
    forall a, b
      ensures (MemLess(a, b) || MemLess(b, a) || a == b) && !(MemLess(a, b) && MemLess(b, a))
    {
      MemLessTotal(a, b);
    }
    forall a, b, c | MemLess(a, b) && MemLess(b, c)
      ensures MemLess(a, c)
    {
      MemLessTransitive(a, b, c);
    }
  }

  lemma Less32Facts(a: bv32, b: bv32, c: bv32)
    ensures (Less32(a, b) || Less32(b, a) || a == b) && !(Less32(a, b) && Less32(b, a))
    ensures Less32(a, b) && Less32(b, c) ==> Less32(a, c)
  {
    if a as nat == b as nat {
      WordValueInjective(a, b);
    }
  }

  lemma Less32Orders()
    ensures StrictTotal(Less32)
  {
    hide Less32;
    forall a, b
      ensures (Less32(a, b) || Less32(b, a) || a == b) && !(Less32(a, b) && Less32(b, a))
    {
      Less32Facts(a, b, a);
    }
    forall a, b, c | Less32(a, b) && Less32(b, c)
      ensures Less32(a, c)
    {
      Less32Facts(a, b, c);
    }
  }

  lemma FamiliesOrdered()
    ensures StrictTotal(V4.less) && StrictTotal(V6.less)
  {
    MemLessOrders();
    Less32Orders();
    assert V4.less == Less32 && V6.less == MemLess;
  }

  // -------------------------------------------------------------- self-address

  class SelfTable<K(==, 0, !new)> {
    var keys: array<K>
    var n: nat

    ghost predicate Holds(input: seq<K>)
      reads this, keys
    {
      n <= keys.Length && forall k :: k in keys[..n] <==> k in input
    }

    constructor ()
      ensures n == 0 && fresh(keys)
    {
      keys := new K[0];
      n := 0;
    }

    /** parse_self4 / parse_self6. */
    method Parse(less: (K, K) -> bool, input: seq<K>, memory: bool) returns (ok: bool)
      requires StrictTotal(less) && n == 0
      modifies this
      ensures ok == (|input| == 0 || memory)
      ensures ok ==> Holds(input) && StrictlySorted(less, keys[..n])
      ensures keys == old(keys) || fresh(keys)
    {
      if |input| == 0 {
        return true;
      }
      if !memory {
        return false;
      }
      keys := new K[|input|](i requires 0 <= i < |input| => input[i]);
      assert keys[..|input|] == input;
      TotalIsWeak(less);
      Sort(less, keys, |input|);
      ghost var sorted := keys[..|input|];
      n := UniqueKeys(keys, |input|);
      DropRepeatsSorted(less, sorted);
      forall k ensures k in sorted <==> k in input {
        SameElements(sorted, input, k);
      }
      return true;
    }

    /** self4_hit / self6_hit. */
    method Hit(key: K) returns (hit: bool)
      requires n <= keys.Length
      ensures hit <==> key in keys[..n]
    {
      for i := 0 to n
        invariant key !in keys[..i]
      {
        if keys[i] == key {
          return true;
        }
      }
      return false;
    }
  }

  // ------------------------------------------------------------ wire structures

  const HEADER: nat := 20

  datatype Header = Header(cidrMode: nat, v4: nat, v6: nat, self4: nat, self6: nat)

  function HeaderOf(e: Endian, b: Bytes): Header
    requires |b| >= HEADER
  {
    Header(CountFromNe(e, b[0..4]), CountFromNe(e, b[4..8]), CountFromNe(e, b[8..12]),
           CountFromNe(e, b[12..16]), CountFromNe(e, b[16..20]))
  }

  function Pfx4At(e: Endian, b: Bytes): Pfx<bv32>
    requires |b| == 8
  {
    Pfx(Ntohl(e, FromNe32(e, b[..4])), b[4] as nat, b[5] as nat)
  }

  function Pfx6At(b: Bytes): Pfx<Bytes>
    requires |b| == 20
  {
    Pfx(b[..16], b[16] as nat, b[17] as nat)
  }

  function Decode4(e: Endian, b: Bytes, n: nat): (r: seq<Pfx<bv32>>)
    requires |b| == 8 * n
    ensures |r| == n && forall i :: 0 <= i < n ==> r[i] == Pfx4At(e, b[8 * i..8 * i + 8])
  {
    seq(n, i requires 0 <= i < n => Pfx4At(e, b[8 * i..8 * i + 8]))
  }

  function Decode6(b: Bytes, n: nat): (r: seq<Pfx<Bytes>>)
    requires |b| == 20 * n
    ensures |r| == n && forall i :: 0 <= i < n ==> r[i] == Pfx6At(b[20 * i..20 * i + 20])
  {
    seq(n, i requires 0 <= i < n => Pfx6At(b[20 * i..20 * i + 20]))
  }

  function DecodeSelf4(e: Endian, b: Bytes, n: nat): (r: seq<bv32>)
    requires |b| == 4 * n
    ensures |r| == n && forall i :: 0 <= i < n ==> r[i] == Ntohl(e, FromNe32(e, b[4 * i..4 * i + 4]))
  {
    seq(n, i requires 0 <= i < n => Ntohl(e, FromNe32(e, b[4 * i..4 * i + 4])))
  }

  function DecodeSelf6(b: Bytes, n: nat): (r: seq<Bytes>)
    requires |b| == 16 * n
    ensures |r| == n && forall i :: 0 <= i < n ==> r[i] == b[16 * i..16 * i + 16]
  {
    seq(n, i requires 0 <= i < n => b[16 * i..16 * i + 16])
  }

  /** The ioctl argument as the module understands it. */
  datatype Request = Request(cidrMode: nat, v4: seq<Pfx<bv32>>, v6: seq<Pfx<Bytes>>, self4: seq<bv32>, self6: seq<Bytes>)

  function PayloadLen(h: Header): nat {
    HEADER + 8 * h.v4 + 20 * h.v6 + 4 * h.self4 + 16 * h.self6
  }

  predicate Complete(e: Endian, user: Bytes) {
    |user| >= HEADER && |user| >= PayloadLen(HeaderOf(e, user))
  }

  function RequestOf(e: Endian, user: Bytes): Request
    requires Complete(e, user)
  {
    RequestWith(e, user, HeaderOf(e, user))
  }

  function RequestWith(e: Endian, user: Bytes, h: Header): Request
    requires |user| >= PayloadLen(h)
  {
    var a := HEADER;
    var b := a + 8 * h.v4;
    var c := b + 20 * h.v6;
    var d := c + 4 * h.self4;
    Request(h.cidrMode, Decode4(e, user[a..b], h.v4), Decode6(user[b..c], h.v6),
            DecodeSelf4(e, user[c..d], h.self4), DecodeSelf6(user[d..d + 16 * h.self6], h.self6))
  }

  // ------------------------------------------------------------- SET_BYPASS

  datatype Errno = OK | EFAULT | EINVAL | ENOSPC | ENOMEM

  /** Which of the allocations of one call succeed. */
  datatype Memory = Memory(buf: bool, set_: bool, v4: bool, v6: bool, self4: bool, self6: bool)

  function FromParse(r: ParseResult): Errno {
    match r
    case Parsed => OK
    case NoMemory => ENOMEM
    case Malformed => EINVAL
  }

  /** The result of the checks on the header and the two user copies. */
  function CheckOutcome(e: Endian, user: Bytes, mem: Memory): (err: Errno)
    ensures err == OK ==> Complete(e, user)
  {
    if |user| < HEADER then EFAULT
    else
      var h := HeaderOf(e, user);
      if h.cidrMode > CIDR_WHITELIST then EINVAL
      else if h.v4 > LPM_MAX || h.v6 > LPM_MAX || h.self4 > SELF_MAX || h.self6 > SELF_MAX then ENOSPC
      else if !mem.buf then ENOMEM
      else if |user| < PayloadLen(h) then EFAULT
      else if !mem.set_ then ENOMEM
      else OK
  }

  /** The result of the call, from the bytes alone. */
  function Outcome(e: Endian, user: Bytes, mem: Memory): Errno {
    var check := CheckOutcome(e, user, mem);
    if check != OK then check else BuildOutcome(RequestOf(e, user), mem)
  }

  function BuildOutcome(r: Request, mem: Memory): Errno {
    var p4, p6 := ParseOutcome(32, r.v4, mem.v4), ParseOutcome(128, r.v6, mem.v6);
    if !p4.Parsed? then FromParse(p4)
    else if !p6.Parsed? then FromParse(p6)
    else if (r.self4 != [] && !mem.self4) || (r.self6 != [] && !mem.self6) then ENOMEM
    else OK
  }

  const ALL_MEMORY: Memory := Memory(true, true, true, true, true, true)

  predicate WithinLimits(h: Header) {
    h.v4 <= LPM_MAX && h.v6 <= LPM_MAX && h.self4 <= SELF_MAX && h.self6 <= SELF_MAX
  }

  predicate AllGood(r: Request) {
    && (forall i :: 0 <= i < |r.v4| ==> GoodPrefix(32, r.v4[i]))
    && (forall i :: 0 <= i < |r.v6| ==> GoodPrefix(128, r.v6[i]))
  }

  /** When each error is returned, given enough memory: a bad mode is reported even
      when a count is over its cap, a count over its cap even when the buffer is cut
      short, and a cut buffer before anything in it is looked at. */
  lemma OutcomeExactly(e: Endian, user: Bytes)
    ensures |user| < HEADER ==> Outcome(e, user, ALL_MEMORY) == EFAULT
    ensures |user| >= HEADER ==>
              var err, h := Outcome(e, user, ALL_MEMORY), HeaderOf(e, user);
              var mode, limits, whole := h.cidrMode <= CIDR_WHITELIST, WithinLimits(h), Complete(e, user);
              && (err == OK <==> mode && limits && whole && AllGood(RequestOf(e, user)))
              && (err == EINVAL <==> !mode || (limits && whole && !AllGood(RequestOf(e, user))))
              && (err == ENOSPC <==> mode && !limits)
              && (err == EFAULT <==> mode && limits && !whole)
  {
    hide HeaderOf, RequestWith, GoodPrefix;
  }

  /** An allocation that fails can only turn the answer into ENOMEM, and the call
      succeeds exactly when the buffer is acceptable and what it needs is allocated. */
  lemma MemoryOnlyRefuses(e: Endian, user: Bytes, mem: Memory)
    ensures Outcome(e, user, mem) == ENOMEM || Outcome(e, user, mem) == Outcome(e, user, ALL_MEMORY)
    ensures Outcome(e, user, mem) == OK <==>
              && Outcome(e, user, ALL_MEMORY) == OK && mem.buf && mem.set_
              && var r := RequestOf(e, user);
                 && (r.v4 != [] ==> mem.v4) && (r.v6 != [] ==> mem.v6)
                 && (r.self4 != [] ==> mem.self4) && (r.self6 != [] ==> mem.self6)
  {
    hide HeaderOf, RequestWith, GoodPrefix;
  }

  /** struct fluxrs_set as a value: what a reader of the published set sees. */
  datatype Published = Published(
    cidrMode: nat, v4: seq<Pfx<bv32>>, v6: seq<Pfx<Bytes>>, self4: seq<bv32>, self6: seq<Bytes>)

  ghost predicate Answers(p: Published, r: Request) {
    && p.cidrMode == r.cidrMode
    && BuiltFrom(V4, r.v4, p.v4) && BuiltFrom(V6, r.v6, p.v6)
    && (forall a :: a in p.self4 <==> a in r.self4) && (forall a :: a in p.self6 <==> a in r.self6)
  }

  datatype Packet = Ipv4(d4: Bytes) | Ipv6(d6: Bytes) | OtherFamily

  predicate WellFormedPacket(d: Packet) {
    match d
    case Ipv4(b) => |b| == 4
    case Ipv6(b) => |b| == 16
    case OtherFamily => true
  }

  predicate TagDirect(cidrMode: nat, hit: bool, tag: nat) {
    if hit && tag == RESERVED then true
    else if cidrMode == CIDR_WHITELIST then !hit || tag != POLICY
    else hit
  }

  /** The verdict set_direct may give on a published set. */
  ghost predicate DirectMeans(p: Published, d: Packet, direct: bool)
    requires WellFormedPacket(d)
  {
    match d
    case Ipv4(b) =>
      if Be32(b) in p.self4 then direct
      else exists hit, tag :: LookupMeans(V4, p.v4, Be32(b), hit, tag) && direct == TagDirect(p.cidrMode, hit, tag)
    case Ipv6(b) =>
      if b in p.self6 then direct
      else exists hit, tag :: LookupMeans(V6, p.v6, b, hit, tag) && direct == TagDirect(p.cidrMode, hit, tag)
    case OtherFamily => !direct
  }

  class FluxSet {
    var cidrMode: nat
    var v4: Table<bv32>
    var v6: Table<Bytes>
    var self4: SelfTable<bv32>
    var self6: SelfTable<Bytes>

    ghost predicate Valid()
      reads this, v4, v4.entries, v4.off, v6, v6.entries, v6.off, self4, self4.keys, self6, self6.keys
    {
      && v4.Valid(V4) && v6.Valid(V6)
      && self4.n <= self4.keys.Length && self6.n <= self6.keys.Length
    }

    ghost function Value(): Published
      requires Valid()
      reads this, v4, v4.entries, v4.off, v6, v6.entries, v6.off, self4, self4.keys, self6, self6.keys
    {
      Published(cidrMode, v4.Contents(), v6.Contents(), self4.keys[..self4.n], self6.keys[..self6.n])
    }

    /** kvzalloc and the two fill_off calls. */
    constructor (mode: nat)
      requires StrictTotal(V4.less) && StrictTotal(V6.less)
      ensures Valid() && cidrMode == mode
      ensures v4.n == 0 && v6.n == 0 && self4.n == 0 && self6.n == 0
      ensures fresh(v4) && fresh(v4.entries) && fresh(v4.off) && fresh(v6) && fresh(v6.entries) && fresh(v6.off)
      ensures fresh(self4) && fresh(self4.keys) && fresh(self6) && fresh(self6.keys)
      ensures v4.off != v6.off && v4 as object != v6 && self4 as object != self6
    {
      cidrMode := mode;
      var t4 := new Table<bv32>(V4);
      var t6 := new Table<Bytes>(V6);
      var s4 := new SelfTable<bv32>();
      var s6 := new SelfTable<Bytes>();
      v4, v6, self4, self6 := t4, t6, s4, s6;
    }

    /** set_direct on a non-null set. */
    method Direct(e: Endian, d: Packet) returns (direct: bool)
      requires Valid() && WellFormedPacket(d)
      ensures DirectMeans(Value(), d, direct)
    {
      match d {
        case Ipv4(b) =>
          NativeAddressRoundTrip(e, b);
          var a := Ntohl(e, FromNe32(e, b));
          var self := self4.Hit(a);
          if self {
            return true;
          }
          var hit, tag := v4.Lookup(V4, a);
          return TagDirect(cidrMode, hit, tag);
        case Ipv6(b) =>
          var self := self6.Hit(b);
          if self {
            return true;
          }
          var hit, tag := v6.Lookup(V6, b);
          return TagDirect(cidrMode, hit, tag);
        case OtherFamily =>
          return false;
      }
    }
  }

  /** The part of fluxrs_set_bypass up to the copy of the whole buffer. */
  method CheckBuffer(e: Endian, user: Bytes, mem: Memory) returns (err: Errno)
    ensures err == CheckOutcome(e, user, mem)
  {
    hide HeaderOf;
    if |user| < HEADER {
      return EFAULT;
    }
    var h := HeaderOf(e, user);
    if h.cidrMode > CIDR_WHITELIST {
      return EINVAL;
    }
    if h.v4 > LPM_MAX || h.v6 > LPM_MAX {
      return ENOSPC;
    }
    if h.self4 > SELF_MAX || h.self6 > SELF_MAX {
      return ENOSPC;
    }
    if !mem.buf {
      return ENOMEM;
    }
    if |user| < PayloadLen(h) {
      return EFAULT;
    }
    return if mem.set_ then OK else ENOMEM;
  }

  /** The two prefix arrays, IPv4 first. */
  method ParsePrefixes(t4: Table<bv32>, t6: Table<Bytes>, r: Request, mem: Memory) returns (err: Errno)
    requires t4.Valid(V4) && t6.Valid(V6) && t4.n == 0 && t6.n == 0 && t4.off != t6.off
    modifies t4, t4.off, t6, t6.off
    ensures var p4, p6 := ParseOutcome(32, r.v4, mem.v4), ParseOutcome(128, r.v6, mem.v6);
            err == if !p4.Parsed? then FromParse(p4) else FromParse(p6)
    ensures t4.off == old(t4.off) && t6.off == old(t6.off)
    ensures err == OK ==>
              && t4.Valid(V4) && BuiltFrom(V4, r.v4, t4.Contents()) && (t4.entries == old(t4.entries) || fresh(t4.entries))
              && t6.Valid(V6) && BuiltFrom(V6, r.v6, t6.Contents()) && (t6.entries == old(t6.entries) || fresh(t6.entries))
  {
    hide StrictTotal, StrictlySorted, Increasing, Bucketed, BuiltFrom, GoodPrefix, ParseOutcome;
    var p4 := t4.Parse(V4, r.v4, mem.v4);
    if !p4.Parsed? {
      return FromParse(p4);
    }
    var p6 := t6.Parse(V6, r.v6, mem.v6);
    return FromParse(p6);
  }

  /** The part of fluxrs_set_bypass that fills a private new set. */
  method BuildSet(r: Request, mem: Memory) returns (err: Errno, s: FluxSet?)
    ensures err == BuildOutcome(r, mem)
    ensures err == OK ==> s != null && fresh(s) && s.Valid() && Answers(s.Value(), r)
  {
    FamiliesOrdered();
    hide StrictTotal, StrictlySorted, Increasing, Bucketed, BuiltFrom, GoodPrefix, ParseOutcome;
    s := new FluxSet(r.cidrMode);
    err := ParsePrefixes(s.v4, s.v6, r, mem);
    if err != OK {
      return err, null;
    }
    var ok := s.self4.Parse(V4.less, r.self4, mem.self4);
    if !ok {
      return ENOMEM, null;
    }
    ok := s.self6.Parse(V6.less, r.self6, mem.self6);
    if !ok {
      return ENOMEM, null;
    }
  }

  class BypassModule {
    var live: FluxSet?

    constructor ()
      ensures live == null
    {
      live := null;
    }

    /** fluxrs_set_bypass: every failure leaves the live set alone, and success
        publishes a new one that answers the request. */
    method SetBypass(e: Endian, user: Bytes, mem: Memory) returns (err: Errno)
      modifies this
      ensures err == Outcome(e, user, mem)
      ensures err != OK ==> live == old(live)
      ensures err == OK ==> Complete(e, user)
      ensures err == OK ==> live != null && fresh(live) && live.Valid() && Answers(live.Value(), RequestOf(e, user))
    {
      hide HeaderOf, RequestWith, BuildOutcome, Answers;
      err := CheckBuffer(e, user, mem);
      if err != OK {
        return;
      }
      var new_set;
      err, new_set := BuildSet(RequestOf(e, user), mem);
      if err == OK {
        live := new_set;
      }
    }

    /** fluxrs_policy_direct. */
    method PolicyDirect(e: Endian, d: Packet) returns (direct: bool)
      requires WellFormedPacket(d) && (live != null ==> live.Valid())
      ensures live == null ==> !direct
      ensures live != null ==> DirectMeans(live.Value(), d, direct)
    {
      if live == null {
        return false;
      }
      direct := live.Direct(e, d);
    }
  }
}
