/** The two array idioms the kernel module uses everywhere: sort(), of which only
    a sorted permutation is known, and the in-place removal of repeats. */
module KernelSort {

  /** A comparator's strict part: equal elements stay unordered. */
  ghost predicate StrictWeak<T(!new)>(before: (T, T) -> bool) {
    && (forall a, b :: before(a, b) ==> !before(b, a))
    && (forall a, b, c :: !before(a, b) && !before(b, c) ==> !before(a, c))
  }

  ghost predicate StrictTotal<T(!new)>(less: (T, T) -> bool) {
    && (forall a, b :: less(a, b) || less(b, a) || a == b)
    && (forall a, b :: !(less(a, b) && less(b, a)))
    && (forall a, b, c :: less(a, b) && less(b, c) ==> less(a, c))
  }

  ghost predicate Sorted<T>(before: (T, T) -> bool, s: seq<T>) {
    forall i, j :: 0 <= i < j < |s| ==> !before(s[j], s[i])
  }

  ghost predicate StrictlySorted<T>(less: (T, T) -> bool, s: seq<T>) {
    forall i, j :: 0 <= i < j < |s| ==> less(s[i], s[j])
  }

  function Insert<T>(before: (T, T) -> bool, e: T, s: seq<T>): seq<T> {
    if s == [] || !before(s[0], e) then [e] + s else [s[0]] + Insert(before, e, s[1..])
  }

  function Arrange<T>(before: (T, T) -> bool, s: seq<T>): seq<T> {
    if s == [] then [] else Insert(before, s[0], Arrange(before, s[1..]))
  }

  lemma {:induction false} InsertSorted<T(!new)>(before: (T, T) -> bool, e: T, s: seq<T>)
    requires StrictWeak(before) && Sorted(before, s)
    ensures Sorted(before, Insert(before, e, s))
    ensures multiset(Insert(before, e, s)) == multiset{e} + multiset(s)
  {
    if s == [] || !before(s[0], e) {
      forall j | 0 <= j < |s| ensures !before(s[j], e) {
        assert j > 0 ==> !before(s[j], s[0]);
      }
    } else {
      InsertSorted(before, e, s[1..]);
      var t := Insert(before, e, s[1..]);
      assert s == [s[0]] + s[1..];
      forall i | 0 <= i < |t| ensures !before(t[i], s[0]) {
        assert t[i] in multiset(t);
        assert t[i] == e || t[i] in s[1..];
      }
    }
  }

  lemma {:induction false} ArrangeSorted<T(!new)>(before: (T, T) -> bool, s: seq<T>)
    requires StrictWeak(before)
    ensures Sorted(before, Arrange(before, s))
    ensures multiset(Arrange(before, s)) == multiset(s)
  {
    if s != [] {
      ArrangeSorted(before, s[1..]);
      InsertSorted(before, s[0], Arrange(before, s[1..]));
      assert s == [s[0]] + s[1..];
    }
  }

  /** sort(): some sorted permutation of the first n elements, with no promise
      about the order of equal ones. */
  method Sort<T(!new)>(before: (T, T) -> bool, p: array<T>, n: nat)
    requires StrictWeak(before) && n <= p.Length
    modifies p
    ensures Sorted(before, p[..n]) && multiset(p[..n]) == multiset(old(p[..n]))
  {
    var s := Arrange(before, p[..n]);
    ArrangeSorted(before, p[..n]);
    assert |s| == |multiset(s)| == |multiset(p[..n])| == n;
    forall i | 0 <= i < n {
      p[i] := s[i];
    }
    assert p[..n] == s;
  }

  /** The list with each run of equal neighbours reduced to one. */
  function DropRepeats<T(==)>(s: seq<T>): (r: seq<T>)
    ensures |r| <= |s| && (s != [] ==> r != [] && r[|r| - 1] == s[|s| - 1])
  {
    if |s| <= 1 then s
    else if s[|s| - 1] == s[|s| - 2] then DropRepeats(s[..|s| - 1])
    else DropRepeats(s[..|s| - 1]) + [s[|s| - 1]]
  }

  /** unique_u32, unique_in6 and the compaction in fluxrs_set_uids. */
  method UniqueKeys<T(==)>(p: array<T>, n: nat) returns (m: nat)
    requires n <= p.Length
    modifies p
    ensures m <= n && p[..m] == DropRepeats(old(p[..n]))
  {
    if n == 0 {
      return 0;
    }
    ghost var was := p[..n];
    var o := 0;
    assert was[..1] == [was[0]] == p[..][..1];
    for i := 1 to n
      invariant Compacted(p[..], was, i, o)
    {
      CompactStep(p[..], was, i, o);
      if p[i] != p[o] {
        o := o + 1;
        p[o] := p[i];
      }
    }
    assert was[..n] == was && p[..o + 1] == p[..][..o + 1];
    return o + 1;
  }

  /** After i elements of was, the kept ones fill a[..o + 1] and the rest are untouched. */
  ghost predicate Compacted<T>(a: seq<T>, was: seq<T>, i: nat, o: nat) {
    o < i <= |was| <= |a| && a[..o + 1] == DropRepeats(was[..i]) && a[i..|was|] == was[i..]
  }

  lemma CompactStep<T>(a: seq<T>, was: seq<T>, i: nat, o: nat)
    requires i < |was| && Compacted(a, was, i, o)
    ensures Compacted(if a[i] != a[o] then a[o + 1 := a[i]] else a, was, i + 1, if a[i] != a[o] then o + 1 else o)
  {
    assert was[..i + 1][..i] == was[..i];
    assert a[o] == a[..o + 1][o] == was[i - 1];
    assert a[i] == a[i..|was|][0] == was[i];
    assert was[i + 1..] == was[i..][1..];
    if a[i] != a[o] {
      assert a[o + 1 := a[i]][..o + 2] == a[..o + 1] + [a[i]];
    }
  }

  /** Dropping repeats from a sorted list keeps exactly its elements, each once,
      in increasing order. */
  lemma {:induction false} DropRepeatsSorted<T(!new)>(less: (T, T) -> bool, s: seq<T>)
    requires StrictTotal(less) && Sorted(less, s)
    ensures StrictlySorted(less, DropRepeats(s))
    ensures forall e :: e in DropRepeats(s) <==> e in s
  {
    if |s| > 1 {
      var front, last := s[..|s| - 1], s[|s| - 1];
      DropRepeatsSorted(less, front);
      assert s == front + [last];
      var r := DropRepeats(front);
      if last != s[|s| - 2] {
        forall i | 0 <= i < |r| ensures less(r[i], last) {
          assert r[i] in front;
          assert less(s[|s| - 2], last);
          assert i < |r| - 1 ==> less(r[i], r[|r| - 1]);
        }
      }
    }
  }

  lemma TotalIsWeak<T(!new)>(less: (T, T) -> bool)
    requires StrictTotal(less)
    ensures StrictWeak(less)
  {
  }

  lemma SameElements<T>(a: seq<T>, b: seq<T>, e: T)
    requires multiset(a) == multiset(b)
    ensures e in a <==> e in b
  {
    assert e in a <==> e in multiset(a);
    assert e in b <==> e in multiset(b);
  }
}
