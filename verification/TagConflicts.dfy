/** Requests in which two prefixes mask to one key with different tags: which of
    them the kernel's sort lets survive, and when that decides a verdict. */
module TagConflicts {
  import opened Words
  import opened KernelSort
  import opened PrefixIndex
  import K = BypassKernel

  // --------------------------------------------------- an arrangement of choice

  /** Inserting in front of equal elements keeps the last of a run last. */
  lemma InsertKeepsLast<T(!new)>(before: (T, T) -> bool, x: T, t: seq<T>, k: nat) returns (j: nat)
    requires StrictWeak(before) && k < |t| && Sorted(before, t)
    requires k + 1 < |t| ==> before(t[k], t[k + 1])
    ensures var r := Insert(before, x, t);
            j < |r| && r[j] == t[k] && (j + 1 < |r| ==> before(r[j], r[j + 1]))
    decreases |t|
  {
    if !before(t[0], x) {
      j := k + 1;
    } else if k == 0 {
      j := 0;
      var rest := Insert(before, x, t[1..]);
      assert rest[0] == x || (|t| > 1 && rest[0] == t[1]);
    } else {
      var i := InsertKeepsLast(before, x, t[1..], k - 1);
      j := i + 1;
    }
  }

  /** The last element of the input ends its run in the arrangement. */
  lemma {:induction false} ArrangeKeepsLast<T(!new)>(before: (T, T) -> bool, s: seq<T>) returns (k: nat)
    requires StrictWeak(before) && s != []
    ensures var r := Arrange(before, s);
            k < |r| && r[k] == s[|s| - 1] && (k + 1 < |r| ==> before(r[k], r[k + 1]))
  {
    if |s| == 1 {
      assert Arrange(before, s) == Insert(before, s[0], Arrange(before, s[1..])) == [s[0]];
      k := 0;
    } else {
      var i := ArrangeKeepsLast(before, s[1..]);
      ArrangeSorted(before, s[1..]);
      k := InsertKeepsLast(before, s[0], Arrange(before, s[1..]), i);
    }
  }

  /** What ends its run before the end survives the compaction, ahead of the last entry. */
  lemma {:induction false} EarlierSurvives<K>(s: seq<Pfx<K>>, k: nat)
    requires k + 1 < |s| && !SameKey(s[k], s[k + 1])
    ensures s[k] in LastOfRuns(s)[..|LastOfRuns(s)| - 1]
  {
    var front, r := s[..|s| - 1], LastOfRuns(s[..|s| - 1]);
    if k + 1 == |s| - 1 {
      assert LastOfRuns(s) == r + [s[|s| - 1]];
      assert LastOfRuns(s)[..|LastOfRuns(s)| - 1] == r;
      assert r[|r| - 1] == s[k];
    } else {
      EarlierSurvives(front, k);
      assert r[..|r| - 1] <= LastOfRuns(s)[..|LastOfRuns(s)| - 1];
    }
  }

  /** What ends its run survives the compaction. */
  lemma RunEndSurvives<K>(s: seq<Pfx<K>>, k: nat)
    requires k < |s| && (k + 1 < |s| ==> !SameKey(s[k], s[k + 1]))
    ensures s[k] in LastOfRuns(s)
  {
    hide LastOfRuns;
    if k + 1 < |s| {
      EarlierSurvives(s, k);
    } else {
      assert LastOfRuns(s)[|LastOfRuns(s)| - 1] == s[k];
    }
  }

  /** The sort may let any one entry survive. */
  lemma AnySurvives<K(!new)>(f: Family<K>, input: seq<Pfx<K>>, e: Pfx<K>) returns (table: seq<Pfx<K>>)
    requires StrictTotal(f.less) && e in MaskedAll(f, input)
    ensures BuiltFrom(f, input, table) && e in table
  {
    var all := MaskedAll(f, input);
    var i :| 0 <= i < |all| && all[i] == e;
    var moved := all[..i] + all[i + 1..] + [e];
    assert all == all[..i] + [e] + all[i + 1..];
    assert multiset(moved) == multiset(all);
    BeforeIsWeak(f);
    var before := (a: Pfx<K>, b: Pfx<K>) => Before(f, a, b);
    ArrangeSorted(before, moved);
    var k := ArrangeKeepsLast(before, moved);
    var sorted := Arrange(before, moved);
    assert InOrder(f, sorted);
    assert Arranged(f, input, sorted);
    RunEndSurvives(sorted, k);
    table := LastOfRuns(sorted);
  }

  // ------------------------------------------------------------ lookup answers

  /** A lookup may answer with the tag of any longest covering input, and with no
      other. */
  lemma AnswersExactly<K(!new)>(f: Family<K>, input: seq<Pfx<K>>, addr: K, tag: nat)
    requires StrictTotal(f.less)
    ensures (exists table :: BuiltFrom(f, input, table) && LookupMeans(f, table, addr, true, tag)) <==>
            (exists e :: Longest(f, MaskedAll(f, input), addr, e) && e.tag == tag)
  {
    if table :| BuiltFrom(f, input, table) && LookupMeans(f, table, addr, true, tag) {
      BuiltLookup(f, input, table, addr, true, tag);
    }
    if e :| Longest(f, MaskedAll(f, input), addr, e) && e.tag == tag {
      var table := AnySurvives(f, input, e);
      SurvivorAnswers(f, input, table, addr, e);
    }
  }

  lemma SurvivorAnswers<K(!new)>(f: Family<K>, input: seq<Pfx<K>>, table: seq<Pfx<K>>, addr: K, e: Pfx<K>)
    requires BuiltFrom(f, input, table) && e in table && Longest(f, MaskedAll(f, input), addr, e)
    ensures LookupMeans(f, table, addr, true, e.tag)
  {
    var sorted :| Arranged(f, input, sorted) && table == LastOfRuns(sorted);
    forall d | d in table && Covers(f, d, addr) ensures d.plen <= e.plen {
      LastOfRunsSubset(sorted, d);
      SortedElements(f, input, sorted, d);
    }
    assert Longest(f, table, addr, e);
  }

  lemma SomeTable<K(!new)>(f: Family<K>, input: seq<Pfx<K>>) returns (table: seq<Pfx<K>>)
    requires StrictTotal(f.less)
    ensures BuiltFrom(f, input, table)
  {
    BeforeIsWeak(f);
    var before := (a: Pfx<K>, b: Pfx<K>) => Before(f, a, b);
    ArrangeSorted(before, MaskedAll(f, input));
    var sorted := Arrange(before, MaskedAll(f, input));
    assert Arranged(f, input, sorted);
    table := LastOfRuns(sorted);
  }

  // ------------------------------------------------------------------ verdicts

  /** Among the longest masked inputs that cover addr, one says POLICY and one does not. */
  ghost predicate MixedLongest<K(!new)>(f: Family<K>, input: seq<Pfx<K>>, addr: K) {
    && (exists e :: Longest(f, MaskedAll(f, input), addr, e) && e.tag == POLICY)
    && (exists e :: Longest(f, MaskedAll(f, input), addr, e) && e.tag != POLICY)
  }

  /** For inputs the module does not refuse, that is a RESERVED one beside a POLICY one. */
  lemma MixedIsReservedBesidePolicy<K(!new)>(f: Family<K>, input: seq<Pfx<K>>, addr: K)
    requires forall i :: 0 <= i < |input| ==> GoodPrefix(f.width, input[i])
    ensures MixedLongest(f, input, addr) <==>
              && (exists e :: Longest(f, MaskedAll(f, input), addr, e) && e.tag == POLICY)
              && (exists e :: Longest(f, MaskedAll(f, input), addr, e) && e.tag == RESERVED)
  {
    if e :| Longest(f, MaskedAll(f, input), addr, e) && e.tag != POLICY {
      assert e.tag == RESERVED;
    }
  }

  /** Some table of the input gives the verdict, self addresses aside. */
  ghost predicate MayAnswer<K(!new)>(f: Family<K>, input: seq<Pfx<K>>, addr: K, mode: nat, direct: bool) {
    exists table, hit, tag ::
      BuiltFrom(f, input, table) && LookupMeans(f, table, addr, hit, tag) && direct == K.TagDirect(mode, hit, tag)
  }

  lemma EntryMayAnswer<K(!new)>(f: Family<K>, input: seq<Pfx<K>>, addr: K, mode: nat, e: Pfx<K>)
    requires StrictTotal(f.less) && Longest(f, MaskedAll(f, input), addr, e)
    ensures MayAnswer(f, input, addr, mode, K.TagDirect(mode, true, e.tag))
  {
    hide BuiltFrom, Longest, StrictTotal;
    assert exists d :: Longest(f, MaskedAll(f, input), addr, d) && d.tag == e.tag;
    AnswersExactly(f, input, addr, e.tag);
  }

  lemma BothMayAnswer<K(!new)>(f: Family<K>, input: seq<Pfx<K>>, addr: K, mode: nat)
    requires StrictTotal(f.less)
    ensures MayAnswer(f, input, addr, mode, true) && MayAnswer(f, input, addr, mode, false) <==>
            mode == K.CIDR_WHITELIST && MixedLongest(f, input, addr)
  {
    var all := MaskedAll(f, input);
    if MayAnswer(f, input, addr, mode, true) && MayAnswer(f, input, addr, mode, false) {
      hide BuiltFrom, StrictTotal;
      var t1, h1, g1 :| BuiltFrom(f, input, t1) && LookupMeans(f, t1, addr, h1, g1) && K.TagDirect(mode, h1, g1);
      var t2, h2, g2 :| BuiltFrom(f, input, t2) && LookupMeans(f, t2, addr, h2, g2) && !K.TagDirect(mode, h2, g2);
      BuiltLookup(f, input, t1, addr, h1, g1);
      BuiltLookup(f, input, t2, addr, h2, g2);
    }
    if mode == K.CIDR_WHITELIST && MixedLongest(f, input, addr) {
      hide BuiltFrom, StrictTotal, Longest, MayAnswer;
      var e :| Longest(f, all, addr, e) && e.tag == POLICY;
      var d :| Longest(f, all, addr, d) && d.tag != POLICY;
      EntryMayAnswer(f, input, addr, mode, e);
      EntryMayAnswer(f, input, addr, mode, d);
    }
  }

  /** A set that answers the request may give the packet this verdict. */
  ghost predicate MayVerdict(r: K.Request, d: K.Packet, direct: bool)
    requires K.WellFormedPacket(d)
  {
    exists p :: K.Answers(p, r) && K.DirectMeans(p, d, direct)
  }

  lemma MayVerdict4(r: K.Request, b: Bytes, direct: bool)
    requires |b| == 4
    ensures MayVerdict(r, K.Ipv4(b), direct) <==>
            if Be32(b) in r.self4 then direct else MayAnswer(K.V4, r.v4, Be32(b), r.cidrMode, direct)
  {
    hide BuiltFrom, Be32, K.TagDirect, LookupMeans, StrictTotal;
    K.FamiliesOrdered();
    if MayVerdict(r, K.Ipv4(b), direct) {
      var p :| K.Answers(p, r) && K.DirectMeans(p, K.Ipv4(b), direct);
    }
    if Be32(b) !in r.self4 && MayAnswer(K.V4, r.v4, Be32(b), r.cidrMode, direct) {
      var t4, hit, tag :| BuiltFrom(K.V4, r.v4, t4) && LookupMeans(K.V4, t4, Be32(b), hit, tag)
                          && direct == K.TagDirect(r.cidrMode, hit, tag);
      var t6 := SomeTable(K.V6, r.v6);
      var p := K.Published(r.cidrMode, t4, t6, r.self4, r.self6);
      assert K.Answers(p, r) && K.DirectMeans(p, K.Ipv4(b), direct);
    }
    if Be32(b) in r.self4 && direct {
      var t4 := SomeTable(K.V4, r.v4);
      var t6 := SomeTable(K.V6, r.v6);
      var p := K.Published(r.cidrMode, t4, t6, r.self4, r.self6);
      assert K.Answers(p, r) && K.DirectMeans(p, K.Ipv4(b), direct);
    }
  }

  lemma MayVerdict6(r: K.Request, b: Bytes, direct: bool)
    requires |b| == 16
    ensures MayVerdict(r, K.Ipv6(b), direct) <==>
            if b in r.self6 then direct else MayAnswer(K.V6, r.v6, b, r.cidrMode, direct)
  {
    hide BuiltFrom, K.TagDirect, LookupMeans, StrictTotal;
    K.FamiliesOrdered();
    if MayVerdict(r, K.Ipv6(b), direct) {
      var p :| K.Answers(p, r) && K.DirectMeans(p, K.Ipv6(b), direct);
    }
    if b !in r.self6 && MayAnswer(K.V6, r.v6, b, r.cidrMode, direct) {
      var t6, hit, tag :| BuiltFrom(K.V6, r.v6, t6) && LookupMeans(K.V6, t6, b, hit, tag)
                          && direct == K.TagDirect(r.cidrMode, hit, tag);
      var t4 := SomeTable(K.V4, r.v4);
      var p := K.Published(r.cidrMode, t4, t6, r.self4, r.self6);
      assert K.Answers(p, r) && K.DirectMeans(p, K.Ipv6(b), direct);
    }
    if b in r.self6 && direct {
      var t4 := SomeTable(K.V4, r.v4);
      var t6 := SomeTable(K.V6, r.v6);
      var p := K.Published(r.cidrMode, t4, t6, r.self4, r.self6);
      assert K.Answers(p, r) && K.DirectMeans(p, K.Ipv6(b), direct);
    }
  }

  /** The destination is not a self address and its longest prefixes are mixed. */
  ghost predicate Conflicted(r: K.Request, d: K.Packet)
    requires K.WellFormedPacket(d)
  {
    match d
    case Ipv4(b) => Be32(b) !in r.self4 && MixedLongest(K.V4, r.v4, Be32(b))
    case Ipv6(b) => b !in r.self6 && MixedLongest(K.V6, r.v6, b)
    case OtherFamily => false
  }

  /** The sort decides a verdict exactly in whitelist mode and at a conflicted
      destination: there both verdicts are possible, everywhere else one is. */
  lemma SortDecidesExactly(r: K.Request, d: K.Packet)
    requires K.WellFormedPacket(d)
    ensures (exists p1, p2 :: K.Answers(p1, r) && K.Answers(p2, r)
                              && K.DirectMeans(p1, d, true) && K.DirectMeans(p2, d, false))
            <==> r.cidrMode == K.CIDR_WHITELIST && Conflicted(r, d)
  {
    hide K.Answers, Be32, MixedLongest, StrictTotal, MayAnswer;
    K.FamiliesOrdered();
    assert MayVerdict(r, d, true) && MayVerdict(r, d, false) <==>
        exists p1, p2 :: K.Answers(p1, r) && K.Answers(p2, r) && K.DirectMeans(p1, d, true) && K.DirectMeans(p2, d, false)
    by { hide K.DirectMeans; }
    match d {
      case Ipv4(b) =>
        hide MayVerdict, K.DirectMeans;
        MayVerdict4(r, b, true);
        MayVerdict4(r, b, false);
        BothMayAnswer(K.V4, r.v4, Be32(b), r.cidrMode);
      case Ipv6(b) =>
        hide MayVerdict, K.DirectMeans;
        MayVerdict6(r, b, true);
        MayVerdict6(r, b, false);
        BothMayAnswer(K.V6, r.v6, b, r.cidrMode);
      case OtherFamily =>
    }
  }

  lemma ConsistentIsNotMixed<K(!new)>(f: Family<K>, input: seq<Pfx<K>>, addr: K)
    requires Consistent(MaskedAll(f, input))
    ensures !MixedLongest(f, input, addr)
  {
    if MixedLongest(f, input, addr) {
      var all := MaskedAll(f, input);
      var e :| Longest(f, all, addr, e) && e.tag == POLICY;
      var d :| Longest(f, all, addr, d) && d.tag != POLICY;
      assert SameKey(e, d);
      assert false;
    }
  }

  /** A request without conflicting tags determines every verdict. */
  lemma VerdictDetermined(r: K.Request, p1: K.Published, p2: K.Published, d: K.Packet, v1: bool, v2: bool)
    requires K.Answers(p1, r) && K.Answers(p2, r) && K.WellFormedPacket(d)
    requires Consistent(MaskedAll(K.V4, r.v4)) && Consistent(MaskedAll(K.V6, r.v6))
    requires K.DirectMeans(p1, d, v1) && K.DirectMeans(p2, d, v2)
    ensures v1 == v2
  {
    hide K.Answers, K.DirectMeans, Be32, MixedLongest, Consistent;
    SortDecidesExactly(r, d);
    match d
    case Ipv4(b) => ConsistentIsNotMixed(K.V4, r.v4, Be32(b));
    case Ipv6(b) => ConsistentIsNotMixed(K.V6, r.v6, b);
    case OtherFamily =>
  }

  /** 10.0.0.0/8 as RESERVED beside 10.0.0.1/8 as POLICY in whitelist mode. */
  const CLASH: K.Request := K.Request(
    K.CIDR_WHITELIST, [Pfx(0x0a00_0000, 8, RESERVED), Pfx(0x0a00_0001, 8, POLICY)], [], [], [])

  /** A packet to 10.0.0.0 may be sent direct or captured, whichever entry the sort
      put last. */
  lemma ConflictingTagsDependOnOrder()
    ensures exists p1, p2, to10 :: |to10| == 4 && Be32(to10) == 0x0a00_0000
              && K.Answers(p1, CLASH) && K.Answers(p2, CLASH)
              && K.DirectMeans(p1, K.Ipv4(to10), true) && K.DirectMeans(p2, K.Ipv4(to10), false)
  {
    var net: bv32 := 0x0a00_0000;
    assert ByteOf(8) == 8;
    assert net & K.Plen4Mask(8) == net;
    assert (0x0a00_0001 as bv32) & K.Plen4Mask(8) == net;
    var all := MaskedAll(K.V4, CLASH.v4);
    assert all == [Pfx(net, 8, RESERVED), Pfx(net, 8, POLICY)];
    assert Longest(K.V4, all, net, all[0]) && Longest(K.V4, all, net, all[1]);
    var b := Octets4(net);
    hide K.Answers, K.DirectMeans, Longest;
    SortDecidesExactly(CLASH, K.Ipv4(b));
  }
}
