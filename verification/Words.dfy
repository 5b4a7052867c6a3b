/** Machine words and byte order: how the control plane's integers become the
    bytes that the kernel module reads, and how a network-order address is read
    back on either kind of machine. */
module Words {
  type Bytes = seq<bv8>

  /** Native byte order of the machine that runs both sides. */
  datatype Endian = Little | Big

  function Be32(b: Bytes): bv32
    requires |b| == 4
  {
    ((b[0] as bv32) << 24) | ((b[1] as bv32) << 16) | ((b[2] as bv32) << 8) | (b[3] as bv32)
  }

  /** The four octets of an IPv4 address, in network order. */
  function Octets4(x: bv32): (b: Bytes)
    ensures |b| == 4 && Be32(b) == x
  {
    [((x >> 24) & 0xff) as bv8, ((x >> 16) & 0xff) as bv8, ((x >> 8) & 0xff) as bv8, (x & 0xff) as bv8]
  }

  function Reverse4(b: Bytes): (r: Bytes)
    requires |b| == 4
    ensures |r| == 4
  {
    [b[3], b[2], b[1], b[0]]
  }

  /** Rust's from_ne_bytes and the kernel's native load of a u32. */
  function FromNe32(e: Endian, b: Bytes): bv32
    requires |b| == 4
  {
    if e.Big? then Be32(b) else Be32(Reverse4(b))
  }

  /** Rust's to_ne_bytes. */
  function ToNe32(e: Endian, x: bv32): (b: Bytes)
    ensures |b| == 4
  {
    if e.Big? then Octets4(x) else Reverse4(Octets4(x))
  }

  /** The kernel's ntohl on a natively loaded word. */
  function Ntohl(e: Endian, x: bv32): bv32 {
    if e.Big? then x else Be32(Reverse4(Octets4(x)))
  }

  lemma Octets4OfBe32(b: Bytes)
    requires |b| == 4
    ensures Octets4(Be32(b)) == b
  {
  }

  /** Octets survive a native store and load, and ntohl recovers the address
      value, whatever the byte order. */
  lemma NativeAddressRoundTrip(e: Endian, b: Bytes)
    requires |b| == 4
    ensures ToNe32(e, FromNe32(e, b)) == b
    ensures Ntohl(e, FromNe32(e, b)) == Be32(b)
  {
    Octets4OfBe32(b);
    Octets4OfBe32(Reverse4(b));
    assert Reverse4(Reverse4(b)) == b;
  }

  lemma NativeWordRoundTrip(e: Endian, x: bv32)
    ensures FromNe32(e, ToNe32(e, x)) == x
  {
    assert Reverse4(Reverse4(Octets4(x))) == Octets4(x);
  }

  /** The byte of value n, counted up from zero in byte arithmetic. */
  function ByteOf(n: nat): bv8
    requires n < 256
  {
    if n == 0 then 0 else ByteOf(n - 1) + 1
  }

  lemma NextByte(x: bv8)
    requires x != 255
    ensures (x + 1) as nat == x as nat + 1
  {
  }

  lemma {:induction false} ByteRoundTrip(n: nat)
    requires n < 256
    ensures ByteOf(n) as nat == n
  {
    if n > 0 {
      ByteRoundTrip(n - 1);
      NextByte(ByteOf(n - 1));
    }
  }

  /** A u32 count, as a number, in four bytes of the given order. */
  function CountToNe(e: Endian, n: nat): (b: Bytes)
    requires n < 0x1_0000_0000
    ensures |b| == 4
  {
    DigitsOf(n);
    var le := [ByteOf(n % 256), ByteOf(n / 256 % 256), ByteOf(n / 256 / 256 % 256), ByteOf(n / 256 / 256 / 256)];
    if e.Big? then Reverse4(le) else le
  }

  function CountFromNe(e: Endian, b: Bytes): (n: nat)
    requires |b| == 4
    ensures n < 0x1_0000_0000
  {
    var le := if e.Big? then Reverse4(b) else b;
    Digits(le[0] as nat, le[1] as nat, le[2] as nat, le[3] as nat)
  }

  function Digits(a: nat, b: nat, c: nat, d: nat): nat {
    a + 256 * b + 65536 * c + 16777216 * d
  }

  lemma DigitsOf(n: nat)
    requires n < 0x1_0000_0000
    ensures n / 256 / 256 / 256 < 256
    ensures Digits(n % 256, n / 256 % 256, n / 256 / 256 % 256, n / 256 / 256 / 256) == n
  {
    var q := n / 256;
    var r := q / 256;
    assert n == 256 * q + n % 256 && q == 256 * r + q % 256 && r == 256 * (r / 256) + r % 256;
  }

  lemma CountRoundTrip(e: Endian, n: nat)
    requires n < 0x1_0000_0000
    ensures CountFromNe(e, CountToNe(e, n)) == n
  {
    ByteRoundTrip(n % 256);
    ByteRoundTrip(n / 256 % 256);
    ByteRoundTrip(n / 256 / 256 % 256);
    ByteRoundTrip(n / 256 / 256 / 256);
    DigitsOf(n);
  }

  function Be128(b: Bytes): bv128
    requires |b| == 16
  {
    ((b[0] as bv128) << 120) | ((b[1] as bv128) << 112) | ((b[2] as bv128) << 104) | ((b[3] as bv128) << 96)
    | ((b[4] as bv128) << 88) | ((b[5] as bv128) << 80) | ((b[6] as bv128) << 72) | ((b[7] as bv128) << 64)
    | ((b[8] as bv128) << 56) | ((b[9] as bv128) << 48) | ((b[10] as bv128) << 40) | ((b[11] as bv128) << 32)
    | ((b[12] as bv128) << 24) | ((b[13] as bv128) << 16) | ((b[14] as bv128) << 8) | (b[15] as bv128)
  }

  /** The sixteen octets of an IPv6 address, in network order. */
  function Octets16(x: bv128): (b: Bytes)
    ensures |b| == 16 && Be128(b) == x
  {
    [((x >> 120) & 0xff) as bv8, ((x >> 112) & 0xff) as bv8, ((x >> 104) & 0xff) as bv8, ((x >> 96) & 0xff) as bv8,
     ((x >> 88) & 0xff) as bv8, ((x >> 80) & 0xff) as bv8, ((x >> 72) & 0xff) as bv8, ((x >> 64) & 0xff) as bv8,
     ((x >> 56) & 0xff) as bv8, ((x >> 48) & 0xff) as bv8, ((x >> 40) & 0xff) as bv8, ((x >> 32) & 0xff) as bv8,
     ((x >> 24) & 0xff) as bv8, ((x >> 16) & 0xff) as bv8, ((x >> 8) & 0xff) as bv8, (x & 0xff) as bv8]
  }

  lemma Be128Injective(a: Bytes, b: Bytes)
    requires |a| == |b| == 16 && Be128(a) == Be128(b)
    ensures a == b
  {
  }

  /** memcmp(a, b, 16) < 0: the first differing byte decides. */
  predicate MemLess(a: Bytes, b: Bytes)
    decreases |a|
  {
    if |a| == 0 || |b| == 0 then |a| < |b|
    else a[0] < b[0] || (a[0] == b[0] && MemLess(a[1..], b[1..]))
  }

  lemma {:induction false} MemLessTransitive(a: Bytes, b: Bytes, c: Bytes)
    requires MemLess(a, b) && MemLess(b, c)
    ensures MemLess(a, c)
    decreases |a|
  {
    if |a| > 0 && |b| > 0 && |c| > 0 && a[0] == b[0] == c[0] {
      MemLessTransitive(a[1..], b[1..], c[1..]);
    }
  }

  lemma {:induction false} MemLessTotal(a: Bytes, b: Bytes)
    ensures MemLess(a, b) || MemLess(b, a) || a == b
    ensures !(MemLess(a, b) && MemLess(b, a))
    ensures a == b ==> !MemLess(a, b)
    decreases |a|
  {
    if |a| > 0 && |b| > 0 && a[0] == b[0] {
      MemLessTotal(a[1..], b[1..]);
      assert a == [a[0]] + a[1..] && b == [b[0]] + b[1..];
    }
  }
}
