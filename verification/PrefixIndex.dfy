/** The kernel module's prefix index: sorted, de-duplicated, length-bucketed
    arrays searched by one binary search per prefix length. The C file writes it
    once per address family; here the family is a parameter. */
module PrefixIndex {
  import opened KernelSort

  /** What the index needs to know about an address family: its width in bits,
      the strict order of keys, and the mask of an address to a prefix length. */
  datatype Family<!K> = Family(width: nat, less: (K, K) -> bool, mask: (K, nat) -> K)

  datatype Pfx<K> = Pfx(net: K, plen: nat, tag: nat)

  predicate SameKey<K(==)>(a: Pfx<K>, b: Pfx<K>) {
    a.plen == b.plen && a.net == b.net
  }

  /** cmp_pfx4 / cmp_pfx6 returning a negative number. */
  predicate Before<K>(f: Family<K>, a: Pfx<K>, b: Pfx<K>) {
    a.plen < b.plen || (a.plen == b.plen && f.less(a.net, b.net))
  }

  ghost predicate InOrder<K>(f: Family<K>, s: seq<Pfx<K>>) {
    forall i, j :: 0 <= i < j < |s| ==> !Before(f, s[j], s[i])
  }

  ghost predicate Increasing<K>(f: Family<K>, s: seq<Pfx<K>>) {
    forall i, j :: 0 <= i < j < |s| ==> Before(f, s[i], s[j])
  }

  function Masked<K>(f: Family<K>, e: Pfx<K>): Pfx<K> {
    e.(net := f.mask(e.net, e.plen))
  }

  function MaskedAll<K>(f: Family<K>, s: seq<Pfx<K>>): (r: seq<Pfx<K>>)
    ensures |r| == |s| && forall i :: 0 <= i < |s| ==> r[i] == Masked(f, s[i])
  {
    seq(|s|, i requires 0 <= i < |s| => Masked(f, s[i]))
  }

  // ---------------------------------------------------- the meaning of a lookup

  predicate Covers<K(==)>(f: Family<K>, e: Pfx<K>, addr: K) {
    e.plen <= f.width && f.mask(addr, e.plen) == e.net
  }

  /** e is a longest prefix of s that covers addr (section 5.1 of RFC 4632). */
  ghost predicate Longest<K>(f: Family<K>, s: seq<Pfx<K>>, addr: K, e: Pfx<K>) {
    e in s && Covers(f, e, addr) && forall d :: d in s && Covers(f, d, addr) ==> d.plen <= e.plen
  }

  /** What a lookup over the prefixes s may answer. */
  ghost predicate LookupMeans<K(!new)>(f: Family<K>, s: seq<Pfx<K>>, addr: K, hit: bool, tag: nat) {
    if hit then exists e :: Longest(f, s, addr, e) && e.tag == tag
    else forall e :: e in s ==> !Covers(f, e, addr)
  }

  ghost predicate Consistent<K>(s: seq<Pfx<K>>) {
    forall a, b :: a in s && b in s && SameKey(a, b) ==> a.tag == b.tag
  }

  /** Without conflicting tags for one prefix, a lookup has one answer. */
  lemma LookupUnique<K(!new)>(f: Family<K>, s: seq<Pfx<K>>, addr: K, h1: bool, t1: nat, h2: bool, t2: nat)
    requires Consistent(s)
    requires LookupMeans(f, s, addr, h1, t1) && LookupMeans(f, s, addr, h2, t2)
    ensures h1 == h2 && (h1 ==> t1 == t2)
  {
    if h1 && h2 {
      var e1 :| Longest(f, s, addr, e1) && e1.tag == t1;
      var e2 :| Longest(f, s, addr, e2) && e2.tag == t2;
      assert SameKey(e1, e2);
    }
  }

  lemma BeforeIsWeak<K(!new)>(f: Family<K>)
    requires StrictTotal(f.less)
    ensures StrictWeak((a: Pfx<K>, b: Pfx<K>) => Before(f, a, b))
  {
  }

  method SortPfx<K(!new)>(f: Family<K>, p: array<Pfx<K>>)
    requires StrictTotal(f.less)
    modifies p
    ensures InOrder(f, p[..]) && multiset(p[..]) == multiset(old(p[..]))
  {
    BeforeIsWeak(f);
    assert p[..p.Length] == p[..];
    Sort((a, b) => Before(f, a, b), p, p.Length);
    assert p[..p.Length] == p[..];
  }

  // ---------------------------------------------------------------- unique_pfx

  /** Of each run of neighbours with equal keys, the last entry. */
  function LastOfRuns<K(==)>(s: seq<Pfx<K>>): (r: seq<Pfx<K>>)
    ensures |r| <= |s| && (s != [] ==> r != [] && r[|r| - 1] == s[|s| - 1])
  {
    if |s| <= 1 then s
    else
      var r := LastOfRuns(s[..|s| - 1]);
      (if SameKey(s[|s| - 2], s[|s| - 1]) then r[..|r| - 1] else r) + [s[|s| - 1]]
  }

  method UniquePfx<K(==)>(p: array<Pfx<K>>, n: nat) returns (m: nat)
    requires n <= p.Length
    modifies p
    ensures m <= n && p[..m] == LastOfRuns(old(p[..n]))
  {
    if n == 0 {
      return 0;
    }
    ghost var was := p[..n];
    var o := 0;
    RunsStart(p[..], was);
    hide RunsKept, LastOfRuns;
    for i := 1 to n
      invariant i <= p.Length && o < i
      invariant RunsKept(p[..], was, i, o)
    {
      ghost var a := p[..];
      RunStep(a, was, i, o);
      if !SameKey(p[i], p[o]) {
        o := o + 1;
      }
      p[o] := p[i];
      assert p[..] == a[o := a[i]];
    }
    RunsEnd(p[..], was, o);
    assert p[..o + 1] == p[..][..o + 1];
    return o + 1;
  }

  lemma RunsStart<K>(a: seq<Pfx<K>>, was: seq<Pfx<K>>)
    requires 0 < |was| && was <= a
    ensures RunsKept(a, was, 1, 0)
  {
    assert was[..1] == [was[0]] == a[..1];
  }

  lemma RunsEnd<K>(a: seq<Pfx<K>>, was: seq<Pfx<K>>, o: nat)
    requires RunsKept(a, was, |was|, o)
    ensures o < |was| <= |a| && a[..o + 1] == LastOfRuns(was)
  {
    assert was[..|was|] == was;
  }

  ghost predicate RunsKept<K>(a: seq<Pfx<K>>, was: seq<Pfx<K>>, i: nat, o: nat) {
    o < i <= |was| <= |a| && a[..o + 1] == LastOfRuns(was[..i]) && a[i..|was|] == was[i..]
  }

  lemma RunStep<K>(a: seq<Pfx<K>>, was: seq<Pfx<K>>, i: nat, o: nat)
    requires i < |was| && RunsKept(a, was, i, o)
    ensures o < i < |a|
    ensures var k := if SameKey(a[i], a[o]) then o else o + 1;
            RunsKept(a[k := a[i]], was, i + 1, k)
  {
    assert was[..i + 1][..i] == was[..i];
    assert a[o] == a[..o + 1][o] == was[i - 1];
    assert a[i] == a[i..|was|][0] == was[i];
    assert was[i + 1..] == was[i..][1..];
    if SameKey(a[i], a[o]) {
      assert a[o := a[i]][..o + 1] == a[..o + 1][..o] + [a[i]];
    } else {
      assert a[o + 1 := a[i]][..o + 2] == a[..o + 1] + [a[i]];
    }
  }

  /** Compaction of a sorted list leaves the keys strictly increasing. */
  lemma {:induction false} LastOfRunsStrict<K(!new)>(f: Family<K>, s: seq<Pfx<K>>)
    requires StrictTotal(f.less) && InOrder(f, s)
    ensures Increasing(f, LastOfRuns(s))
  {
    if |s| > 1 {
      var front, last := s[..|s| - 1], s[|s| - 1];
      LastOfRunsStrict(f, front);
      var r := LastOfRuns(front);
      assert !Before(f, last, s[|s| - 2]) && r[|r| - 1] == s[|s| - 2];
      forall i | 0 <= i < |r| - 1 ensures Before(f, r[i], last) {
        BeforeChain(f, r[i], r[|r| - 1], last);
      }
    }
  }

  lemma BeforeChain<K(!new)>(f: Family<K>, a: Pfx<K>, b: Pfx<K>, c: Pfx<K>)
    requires StrictTotal(f.less) && Before(f, a, b) && !Before(f, c, b)
    ensures Before(f, a, c)
  {
  }

  /** Compaction invents nothing. */
  lemma {:induction false} LastOfRunsSubset<K>(s: seq<Pfx<K>>, e: Pfx<K>)
    requires e in LastOfRuns(s)
    ensures e in s
  {
    if |s| > 1 && e in LastOfRuns(s[..|s| - 1]) {
      LastOfRunsSubset(s[..|s| - 1], e);
    }
  }

  /** Compaction loses no prefix. */
  lemma {:induction false} LastOfRunsCovers<K>(s: seq<Pfx<K>>, e: Pfx<K>) returns (d: Pfx<K>)
    requires e in s
    ensures d in LastOfRuns(s) && SameKey(d, e)
  {
    var last := s[|s| - 1];
    if |s| == 1 || e !in s[..|s| - 1] {
      d := last;
      assert LastOfRuns(s)[|LastOfRuns(s)| - 1] == last;
    } else {
      var front := s[..|s| - 1];
      d := LastOfRunsCovers(front, e);
      var r := LastOfRuns(front);
      assert r == r[..|r| - 1] + [s[|s| - 2]];
      if SameKey(s[|s| - 2], last) && d !in r[..|r| - 1] {
        d := last;
      }
    }
  }

  // -------------------------------------------------------- buckets and lookup

  /** off[p] is the first entry of prefix length p or more, so off[p]..off[p + 1]
      is exactly the run of entries of length p. */
  ghost predicate Bucketed<K>(width: nat, s: seq<Pfx<K>>, off: seq<nat>) {
    && |off| == width + 2
    && (forall p :: 0 <= p < |off| ==> off[p] <= |s|)
    && (forall p, i :: 0 <= p < |off| && 0 <= i < |s| ==> (i < off[p] <==> s[i].plen < p))
  }

  /** One family's part of struct fluxrs_set. */
  class Table<K(==, 0, !new)> {
    var entries: array<Pfx<K>>
    var n: nat
    var off: array<nat>

    ghost function Contents(): seq<Pfx<K>>
      reads this, entries
      requires n <= entries.Length
    {
      entries[..n]
    }

    ghost predicate Valid(f: Family<K>)
      reads this, entries, off
    {
      && n <= entries.Length
      && StrictTotal(f.less)
      && Increasing(f, Contents())
      && Bucketed(f.width, Contents(), off[..])
    }

    /** kvzalloc followed by fill_off on the empty table. */
    constructor (f: Family<K>)
      requires StrictTotal(f.less)
      ensures Valid(f) && n == 0 && fresh(entries) && fresh(off)
    {
      entries := new Pfx<K>[0];
      n := 0;
      off := new nat[f.width + 2](_ => 0);
    }

    method FillOff(f: Family<K>)
      requires n <= entries.Length && off.Length == f.width + 2
      requires StrictTotal(f.less) && Increasing(f, Contents())
      requires forall i :: 0 <= i < n ==> entries[i].plen <= f.width
      modifies off
      ensures Bucketed(f.width, Contents(), off[..])
    {
      var i := 0;
      for plen := 0 to f.width + 1
        invariant i <= n
        invariant forall k :: 0 <= k < n ==> (k < i <==> entries[k].plen < plen)
        invariant forall p :: 0 <= p < plen ==> off[p] <= n
        invariant forall p, k :: 0 <= p < plen && 0 <= k < n ==> (k < off[p] <==> entries[k].plen < p)
      {
        off[plen] := i;
        while i < n && entries[i].plen == plen
          invariant off[plen] <= i <= n
          invariant forall k :: off[plen] <= k < i ==> entries[k].plen == plen
        {
          i := i + 1;
        }
        forall k | i < k < n ensures entries[i].plen <= entries[k].plen {
          assert Before(f, Contents()[i], Contents()[k]);
        }
      }
      off[f.width + 1] := n;
    }

    /** The validating copy loop of parse_v4 / parse_v6. */
    method Load(f: Family<K>, input: seq<Pfx<K>>) returns (ok: bool)
      requires |input| > 0
      modifies this`entries
      ensures fresh(entries) && entries.Length == |input|
      ensures ok == forall i :: 0 <= i < |input| ==> GoodPrefix(f.width, input[i])
      ensures ok ==> entries[..] == MaskedAll(f, input)
    {
      entries := new Pfx<K>[|input|];
      for i := 0 to |input|
        invariant fresh(entries) && entries.Length == |input|
        invariant forall k :: 0 <= k < i ==> GoodPrefix(f.width, input[k])
        invariant forall k :: 0 <= k < i ==> entries[k] == Masked(f, input[k])
      {
        if input[i].plen > f.width {
          return false;
        }
        if input[i].tag != RESERVED && input[i].tag != POLICY {
          return false;
        }
        entries[i] := Pfx(f.mask(input[i].net, input[i].plen), input[i].plen, input[i].tag);
      }
      return true;
    }

    method SortAndCompact(f: Family<K>, input: seq<Pfx<K>>)
      requires StrictTotal(f.less) && entries[..] == MaskedAll(f, input)
      requires forall i :: 0 <= i < |input| ==> GoodPrefix(f.width, input[i])
      modifies this`n, entries
      ensures n <= entries.Length && BuiltFrom(f, input, Contents()) && Increasing(f, Contents())
      ensures forall i :: 0 <= i < n ==> entries[i].plen <= f.width
    {
      SortPfx(f, entries);
      ghost var sorted := entries[..];
      assert entries[..|input|] == sorted && Arranged(f, input, sorted);
      n := UniquePfx(entries, |input|);
      LastOfRunsStrict(f, sorted);
      CompactedWidths(f, input, sorted);
      assert forall i :: 0 <= i < n ==> entries[i] == Contents()[i];
    }

    /** parse_v4 / parse_v6 on the decoded input prefixes. */
    method Parse(f: Family<K>, input: seq<Pfx<K>>, memory: bool) returns (err: ParseResult)
      requires Valid(f) && n == 0
      modifies this, off
      ensures err == ParseOutcome(f.width, input, memory)
      ensures off == old(off)
      ensures err == Parsed ==> Valid(f) && BuiltFrom(f, input, Contents()) && (entries == old(entries) || fresh(entries))
    {
      if |input| == 0 {
        BuiltFromEmpty(f, input);
        return Parsed;
      }
      if !memory {
        return NoMemory;
      }
      var ok := Load(f, input);
      if !ok {
        return Malformed;
      }
      SortAndCompact(f, input);
      FillOff(f);
      return Parsed;
    }

    method Find(f: Family<K>, lo0: nat, hi0: nat, key: K) returns (hit: bool, tag: nat)
      requires StrictTotal(f.less)
      requires lo0 <= hi0 <= n <= entries.Length
      requires forall i, j :: lo0 <= i < j < hi0 ==> f.less(entries[i].net, entries[j].net)
      ensures hit <==> exists i :: lo0 <= i < hi0 && entries[i].net == key
      ensures hit ==> exists i :: lo0 <= i < hi0 && entries[i].net == key && entries[i].tag == tag
    {
      var lo, hi := lo0, hi0;
      while lo < hi
        invariant lo0 <= lo <= hi <= hi0
        invariant forall i :: lo0 <= i < hi0 && entries[i].net == key ==> lo <= i < hi
      {
        var mid := lo + (hi - lo) / 2;
        if entries[mid].net == key {
          return true, entries[mid].tag;
        }
        if f.less(entries[mid].net, key) {
          lo := mid + 1;
        } else {
          hi := mid;
        }
      }
      return false, 0;
    }

    /** lpm4 / lpm6: longest bucket first. */
    method Lookup(f: Family<K>, addr: K) returns (hit: bool, tag: nat)
      requires Valid(f)
      ensures LookupMeans(f, Contents(), addr, hit, tag)
    {
      var plen: nat := f.width + 1;
      ghost var s := Contents();
      while plen > 0
        invariant plen <= f.width + 1
        invariant MissesFrom(f, s, addr, plen)
      {
        plen := plen - 1;
        BucketRun(f, s, off[..], plen);
        var lo, hi := off[plen], off[plen + 1];
        assert forall i :: lo <= i < hi ==> entries[i] == s[i];
        if lo != hi {
          hit, tag := Find(f, lo, hi, f.mask(addr, plen));
          if hit {
            ghost var i :| lo <= i < hi && entries[i].net == f.mask(addr, plen) && entries[i].tag == tag;
            assert Longest(f, s, addr, s[i]);
            return;
          }
        }
        assert forall i :: lo <= i < hi ==> s[i].net != f.mask(addr, plen);
        MissBucket(f, s, addr, plen, lo, hi);
      }
      return false, 0;
    }
  }

  ghost predicate MissesFrom<K(!new)>(f: Family<K>, s: seq<Pfx<K>>, addr: K, plen: nat) {
    forall e :: e in s && e.plen >= plen ==> !Covers(f, e, addr)
  }

  lemma BucketRun<K(!new)>(f: Family<K>, s: seq<Pfx<K>>, off: seq<nat>, p: nat)
    requires Bucketed(f.width, s, off) && Increasing(f, s) && p <= f.width
    ensures off[p] <= off[p + 1] <= |s|
    ensures forall i :: 0 <= i < |s| ==> (off[p] <= i < off[p + 1] <==> s[i].plen == p)
    ensures forall i, j :: off[p] <= i < j < off[p + 1] ==> f.less(s[i].net, s[j].net)
  {
    var k := off[p + 1];
    assert k < |s| ==> (k < off[p] <==> s[k].plen < p);
    forall i, j | off[p] <= i < j < off[p + 1] ensures f.less(s[i].net, s[j].net) {
      assert Before(f, s[i], s[j]);
    }
  }

  lemma MissBucket<K(!new)>(f: Family<K>, s: seq<Pfx<K>>, addr: K, p: nat, lo: nat, hi: nat)
    requires MissesFrom(f, s, addr, p + 1) && lo <= hi <= |s|
    requires forall i :: 0 <= i < |s| ==> (lo <= i < hi <==> s[i].plen == p)
    requires forall i :: lo <= i < hi ==> s[i].net != f.mask(addr, p)
    ensures MissesFrom(f, s, addr, p)
  {
    forall e | e in s && e.plen >= p ensures !Covers(f, e, addr) {
      var i :| 0 <= i < |s| && s[i] == e;
    }
  }

  const RESERVED: nat := 1
  const POLICY: nat := 2

  datatype ParseResult = Parsed | NoMemory | Malformed

  predicate GoodPrefix<K>(width: nat, e: Pfx<K>) {
    e.plen <= width && (e.tag == RESERVED || e.tag == POLICY)
  }

  function ParseOutcome<K>(width: nat, input: seq<Pfx<K>>, memory: bool): ParseResult {
    if |input| == 0 then Parsed
    else if !memory then NoMemory
    else if forall i :: 0 <= i < |input| ==> GoodPrefix(width, input[i]) then Parsed
    else Malformed
  }

  /** The table holds one entry, the last in some sorted order, for each masked input prefix. */
  ghost predicate BuiltFrom<K(!new)>(f: Family<K>, input: seq<Pfx<K>>, table: seq<Pfx<K>>) {
    exists sorted :: Arranged(f, input, sorted) && table == LastOfRuns(sorted)
  }

  ghost predicate Arranged<K>(f: Family<K>, input: seq<Pfx<K>>, sorted: seq<Pfx<K>>) {
    InOrder(f, sorted) && multiset(sorted) == multiset(MaskedAll(f, input))
  }

  lemma BuiltFromEmpty<K(!new)>(f: Family<K>, input: seq<Pfx<K>>)
    requires input == []
    ensures BuiltFrom(f, input, [])
  {
    assert Arranged(f, input, []);
    assert LastOfRuns<K>([]) == [];
  }

  lemma SortedElements<K>(f: Family<K>, input: seq<Pfx<K>>, sorted: seq<Pfx<K>>, e: Pfx<K>)
    requires Arranged(f, input, sorted)
    ensures e in sorted <==> e in MaskedAll(f, input)
    ensures e in sorted ==> exists i :: 0 <= i < |input| && e == Masked(f, input[i])
  {
    assert e in sorted <==> e in multiset(sorted);
    assert e in MaskedAll(f, input) <==> e in multiset(MaskedAll(f, input));
  }

  lemma CompactedWidths<K>(f: Family<K>, input: seq<Pfx<K>>, sorted: seq<Pfx<K>>)
    requires Arranged(f, input, sorted)
    requires forall i :: 0 <= i < |input| ==> GoodPrefix(f.width, input[i])
    ensures forall i :: 0 <= i < |LastOfRuns(sorted)| ==> LastOfRuns(sorted)[i].plen <= f.width
  {
    forall i | 0 <= i < |LastOfRuns(sorted)| ensures LastOfRuns(sorted)[i].plen <= f.width {
      LastOfRunsSubset(sorted, LastOfRuns(sorted)[i]);
      SortedElements(f, input, sorted, LastOfRuns(sorted)[i]);
    }
  }

  /** The built table answers exactly as the masked inputs do: hit or miss is
      always right, and the tag is that of a longest covering input. */
  lemma BuiltLookup<K(!new)>(f: Family<K>, input: seq<Pfx<K>>, table: seq<Pfx<K>>, addr: K, hit: bool, tag: nat)
    requires StrictTotal(f.less) && BuiltFrom(f, input, table)
    requires LookupMeans(f, table, addr, hit, tag)
    ensures LookupMeans(f, MaskedAll(f, input), addr, hit, tag)
  {
    var sorted :| Arranged(f, input, sorted) && table == LastOfRuns(sorted);
    var all := MaskedAll(f, input);
    if hit {
      var e :| Longest(f, table, addr, e) && e.tag == tag;
      LastOfRunsSubset(sorted, e);
      SortedElements(f, input, sorted, e);
      forall d | d in all && Covers(f, d, addr) ensures d.plen <= e.plen {
        SortedElements(f, input, sorted, d);
        var d' := LastOfRunsCovers(sorted, d);
        assert Covers(f, d', addr);
      }
      assert Longest(f, all, addr, e);
    } else {
      forall e | e in all ensures !Covers(f, e, addr) {
        SortedElements(f, input, sorted, e);
        var d := LastOfRunsCovers(sorted, e);
      }
    }
  }
}
