/** The daemon log: appending, counting and rotating at the write boundary. */
module LogRotation {
  import opened Wrappers

  const U64_MAX: nat := 0xFFFF_FFFF_FFFF_FFFF

  function Saturating(n: nat): nat {
    if n > U64_MAX then U64_MAX else n
  }

  /** What one rotation makes of the closed files: each number below the retention
      moves up by one, the rest go, and the current file becomes number one. */
  ghost predicate RotatedFrom(after: map<nat, Text>, before: map<nat, Text>, current: Text, retain: nat) {
    && (forall j :: j in after <==> if j <= 1 then j == 1 && retain > 0 else MovesUp(before, j - 1, retain))
    && (forall j :: j in after ==> after[j] == if j <= 1 then current else before[j - 1])
  }

  predicate MovesUp(before: map<nat, Text>, i: nat, retain: nat) {
    i in before && i < retain
  }

  /** Files from number n down to the current one, oldest first. */
  function History(closed: map<nat, Text>, current: Text, n: nat): Text
    requires forall i :: 1 <= i <= n ==> i in closed
  {
    if n == 0 then current else closed[n] + History(closed, current, n - 1)
  }

  predicate IsSuffix(a: Text, b: Text) {
    |a| <= |b| && a == b[|b| - |a|..]
  }

  /** Closed files are numbered from one without gaps. */
  ghost predicate Contiguous(closed: map<nat, Text>, n: nat) {
    forall i :: i in closed <==> 1 <= i <= n
  }

  /** The closed files while a rotation works downwards: those in `left` are still
      to be dealt with, and every other one is above them. */
  ghost predicate SoFar(now: map<nat, Text>, was: map<nat, Text>, left: set<nat>, retain: nat) {
    && left <= was.Keys && 0 !in was
    && (forall i, j :: i in was && i !in left && j in left ==> i > j)
    && (forall j :: j in now <==> Present(was, left, retain, j))
    && (forall j :: j in left ==> j in now && now[j] == was[j])
    && (forall j: nat :: MovesUp(was, j, retain) && j !in left ==> j + 1 in now && now[j + 1] == was[j])
  }

  predicate Present(was: map<nat, Text>, left: set<nat>, retain: nat, j: nat) {
    j in left || (j > 0 && MovesUp(was, j - 1, retain) && j - 1 !in left)
  }

  lemma ShiftBegins(was: map<nat, Text>, retain: nat)
    requires 0 !in was
    ensures SoFar(was, was, was.Keys, retain)
  {
  }

  lemma ShiftEnds(now: map<nat, Text>, was: map<nat, Text>, retain: nat)
    requires SoFar(now, was, {}, retain)
    ensures 1 !in now
  {
    assert !Present(was, {}, retain, 1);
  }

  lemma NextDown(now: map<nat, Text>, was: map<nat, Text>, left: set<nat>, i: nat, retain: nat)
    requires SoFar(now, was, left, retain) && i in left && forall j :: j in left ==> j <= i
    ensures i in now && now[i] == was[i]
    ensures i < retain ==> i + 1 !in now
    ensures SoFar(if i < retain then (now - {i})[i + 1 := was[i]] else now - {i}, was, left - {i}, retain)
  {
    assert Present(was, left, retain, i);
    var next := if i < retain then (now - {i})[i + 1 := was[i]] else now - {i};
    forall j: nat ensures j in next <==> Present(was, left - {i}, retain, j) {
      assert j in now <==> Present(was, left, retain, j);
      assert j == i && j - 1 in was ==> j - 1 in left;
    }
  }

  class Logger {
    var closed: map<nat, Text>
    var current: Option<Text>
    var open: bool
    var bytes: nat
    var maxBytes: nat
    var retain: nat
    /** Renames that replaced an existing file. */
    ghost var overwrites: nat
    /** Everything that ever reached the disk, and the highest closed number. */
    ghost var written: Text
    ghost var last: nat

    ghost predicate Valid()
      reads this
    {
      && maxBytes <= U64_MAX && overwrites == 0
      && Contiguous(closed, last) && IsSuffix(History(closed, Contents(), last), written)
      && (open ==> current.Some? && bytes == Saturating(|current.value|))
    }

    ghost function Contents(): Text
      reads this
    {
      if current.Some? then current.value else []
    }

    /** Logger::open on an empty directory. */
    constructor (maxBytes: nat, retain: nat)
      requires maxBytes <= U64_MAX
      ensures Valid() && closed == map[] && Contents() == [] && written == []
      ensures this.maxBytes == maxBytes && this.retain == retain
    {
      closed, current, open, bytes := map[], None, false, 0;
      this.maxBytes, this.retain := maxBytes, retain;
      overwrites, written, last := 0, [], 0;
      new;
      hide History, IsSuffix, Contiguous;
      StartsEmpty();
      Reopen();
    }

    method Configure(maxBytes: nat, retain: nat)
      requires Valid() && maxBytes <= U64_MAX
      modifies `maxBytes, `retain
      ensures Valid() && this.maxBytes == maxBytes && this.retain == retain
    {
      this.maxBytes, this.retain := maxBytes, retain;
    }

    method Reopen()
      modifies `current, `bytes, `open
      ensures open && current.Some? && Contents() == old(Contents()) && bytes == Saturating(|current.value|)
    {
      if current.None? {
        current := Some([]);
      }
      bytes := Saturating(|current.value|);
      open := true;
    }

    /** fs::rename of a closed file: the target is replaced if it exists. */
    method Rename(from: nat, to: nat)
      requires from in closed && from != to
      modifies `closed, `overwrites
      ensures closed == (old(closed) - {from})[to := old(closed)[from]]
      ensures overwrites == old(overwrites) + (if to in old(closed) then 1 else 0)
    {
      overwrites := overwrites + (if to in closed then 1 else 0);
      closed := (closed - {from})[to := closed[from]];
    }

    /** The loop of Logger::rotate over the numbers found, highest first. */
    method ShiftUp()
      requires 0 !in closed
      modifies `closed, `overwrites
      ensures SoFar(closed, old(closed), {}, retain) && overwrites == old(overwrites) && 1 !in closed
    {
      hide SoFar;
      ghost var was := closed;
      ShiftBegins(was, retain);
      var left := closed.Keys;
      while left != {}
        invariant SoFar(closed, was, left, retain) && overwrites == old(overwrites)
        decreases left
      {
        MaximumExists(left);
        var i :| i in left && forall j :: j in left ==> j <= i;
        NextDown(closed, was, left, i, retain);
        if i >= retain {
          closed := closed - {i};
        } else {
          Rename(i, i + 1);
        }
        left := left - {i};
      }
      ShiftEnds(closed, was, retain);
    }

    /** Logger::rotate. */
    method Rotate()
      requires Valid() && current.Some?
      modifies this
      ensures Valid() && open && Contents() == []
      ensures RotatedFrom(closed, old(closed), old(Contents()), retain) && |closed| <= retain
      ensures maxBytes == old(maxBytes) && retain == old(retain) && written == old(written)
    {
      hide History, IsSuffix, SoFar, RotatedFrom, Contiguous;
      NothingAtZero(closed, last);
      open := false;
      ShiftUp();
      if retain > 0 {
        overwrites := overwrites + (if 1 in closed then 1 else 0);
        closed := closed[1 := current.value];
      }
      current := None;
      RotationDone(closed, old(closed), old(Contents()), last, retain, written);
      last := if last + 1 < retain then last + 1 else retain;
      Reopen();
    }

    /** Logger::append; `landed` of the bytes reach the disk. */
    method Append(text: Text, landed: nat) returns (ok: bool)
      requires Valid() && landed <= |text|
      modifies this
      ensures Valid() && maxBytes == old(maxBytes) && retain == old(retain)
      ensures written == old(written) + text[..landed] && (ok <==> landed == |text|)
      ensures var rotates := Saturating(|old(Contents())|) >= maxBytes;
              && (if rotates then RotatedFrom(closed, old(closed), old(Contents()), retain) else closed == old(closed))
              && Contents() == (if rotates then [] else old(Contents())) + text[..landed]
    {
      if !open {
        Reopen();
      }
      if bytes >= maxBytes {
        Rotate();
      }
      AppendKeepsSuffix(closed, Contents(), last, written, text[..landed]);
      current := Some(current.value + text[..landed]);
      written := written + text[..landed];
      if landed == |text| {
        bytes := Saturating(bytes + |text|);
        ok := true;
      } else {
        open := false;
        ok := false;
      }
    }
  }

  // -------------------------------------------------------------------- lemmas

  lemma StartsEmpty()
    ensures Contiguous(map[], 0) && History(map[], [], 0) == [] && IsSuffix([], [])
  {
  }

  lemma {:induction false} MaximumExists(s: set<nat>)
    requires s != {}
    ensures exists i :: i in s && forall j :: j in s ==> j <= i
  {
    var i :| i in s;
    if s != {i} {
      MaximumExists(s - {i});
      var m :| m in s - {i} && forall j :: j in s - {i} ==> j <= m;
      var top := if i > m then i else m;
      forall j | j in s ensures j <= top {
        assert j == i || j in s - {i};
      }
    }
  }

  lemma ShiftComplete(after: map<nat, Text>, was: map<nat, Text>, current: Text, n: nat, retain: nat)
    requires Contiguous(was, n)
    requires exists now :: SoFar(now, was, {}, retain) && after == if retain > 0 then now[1 := current] else now
    ensures RotatedFrom(after, was, current, retain)
  {
  }

  /** The files after a rotation, read in order, are the newest part of the files
      before it, and at most `retain` of them are closed. */
  lemma RotationKeepsSuffix(after: map<nat, Text>, closed: map<nat, Text>, current: Text, n: nat, retain: nat)
    requires Contiguous(closed, n) && RotatedFrom(after, closed, current, retain)
    ensures var m := if n + 1 < retain then n + 1 else retain;
            && Contiguous(after, m) && |after| == m
            && IsSuffix(History(after, [], m), History(closed, current, n))
  {
    hide RotatedFrom;
    var m := if n + 1 < retain then n + 1 else retain;
    RotatedContiguous(after, closed, current, n, retain);
    CountContiguous(after, m);
    if m > 0 {
      HistoryShifts(closed, after, current, m - 1);
      HistoryIsSuffix(closed, current, m - 1, n);
    }
  }

  lemma RotatedContiguous(after: map<nat, Text>, closed: map<nat, Text>, current: Text, n: nat, retain: nat)
    requires Contiguous(closed, n) && RotatedFrom(after, closed, current, retain)
    ensures var m := if n + 1 < retain then n + 1 else retain;
            && Contiguous(after, m) && (m > 0 ==> after[1] == current)
            && forall i :: 2 <= i <= m ==> after[i] == closed[i - 1]
  {
    var m := if n + 1 < retain then n + 1 else retain;
    forall j: nat ensures j in after <==> 1 <= j <= m {
      assert j > 1 ==> (MovesUp(closed, j - 1, retain) <==> j - 1 <= n && j - 1 < retain);
    }
  }

  lemma NothingAtZero(closed: map<nat, Text>, n: nat)
    requires Contiguous(closed, n)
    ensures 0 !in closed
  {
  }

  lemma RotationDone(after: map<nat, Text>, was: map<nat, Text>, current: Text, n: nat, retain: nat, written: Text)
    requires Contiguous(was, n) && IsSuffix(History(was, current, n), written)
    requires exists now :: SoFar(now, was, {}, retain) && after == if retain > 0 then now[1 := current] else now
    ensures RotatedFrom(after, was, current, retain)
    ensures var m := if n + 1 < retain then n + 1 else retain;
            Contiguous(after, m) && |after| <= retain && IsSuffix(History(after, [], m), written)
  {
    ShiftComplete(after, was, current, n, retain);
    hide RotatedFrom, SoFar, History, IsSuffix;
    RotationKeepsSuffix(after, was, current, n, retain);
    var m := if n + 1 < retain then n + 1 else retain;
    SuffixOfSuffix(History(after, [], m), History(was, current, n), written);
  }

  lemma {:induction false} CountContiguous(closed: map<nat, Text>, n: nat)
    requires Contiguous(closed, n)
    ensures |closed| == n
  {
    if n == 0 {
      assert closed == map[];
    } else {
      CountContiguous(closed - {n}, n - 1);
      assert closed.Keys == (closed - {n}).Keys + {n};
      assert |closed| == |closed.Keys| && |closed - {n}| == |(closed - {n}).Keys|;
    }
  }

  /** Reading one file further after the shift is reading the files before it. */
  lemma {:induction false} HistoryShifts(closed: map<nat, Text>, after: map<nat, Text>, current: Text, k: nat)
    requires forall i :: 1 <= i <= k ==> i in closed
    requires forall i :: 1 <= i <= k + 1 ==> i in after
    requires after[1] == current && forall i :: 2 <= i <= k + 1 ==> after[i] == closed[i - 1]
    ensures History(after, [], k + 1) == History(closed, current, k)
  {
    if k > 0 {
      HistoryShifts(closed, after, current, k - 1);
    } else {
      assert History(after, [], 0) == [];
    }
  }

  lemma {:induction false} HistoryIsSuffix(closed: map<nat, Text>, current: Text, k: nat, n: nat)
    requires k <= n && forall i :: 1 <= i <= n ==> i in closed
    ensures IsSuffix(History(closed, current, k), History(closed, current, n))
  {
    if k < n {
      HistoryIsSuffix(closed, current, k, n - 1);
      SuffixOfSum(closed[n], History(closed, current, n - 1));
      SuffixOfSuffix(History(closed, current, k), History(closed, current, n - 1), History(closed, current, n));
    }
  }

  lemma SuffixOfSum(a: Text, b: Text)
    ensures IsSuffix(b, a + b)
  {
  }

  lemma SuffixOfSuffix(a: Text, b: Text, c: Text)
    requires IsSuffix(a, b) && IsSuffix(b, c)
    ensures IsSuffix(a, c)
  {
  }

  lemma {:induction false} HistoryAppends(closed: map<nat, Text>, current: Text, n: nat, text: Text)
    requires forall i :: 1 <= i <= n ==> i in closed
    ensures History(closed, current + text, n) == History(closed, current, n) + text
  {
    if n > 0 {
      HistoryAppends(closed, current, n - 1, text);
    }
  }

  lemma AppendKeepsSuffix(closed: map<nat, Text>, current: Text, n: nat, written: Text, text: Text)
    requires Contiguous(closed, n) && IsSuffix(History(closed, current, n), written)
    ensures IsSuffix(History(closed, current + text, n), written + text)
  {
    hide History, IsSuffix;
    HistoryAppends(closed, current, n, text);
    SuffixAppends(History(closed, current, n), written, text);
  }

  lemma SuffixAppends(a: Text, b: Text, text: Text)
    requires IsSuffix(a, b)
    ensures IsSuffix(a + text, b + text)
  {
    assert (b + text)[|b| - |a|..] == b[|b| - |a|..] + text;
  }
}
