/** The selected-UID table: rewritten in place by one control call at a time while
    hooks binary-search it without a lock. */
module UidTable {
  import opened Wrappers
  import opened KernelSort

  const SLOT_MAX: nat := 1024
  const OVERFLOW_UID: nat := 65534

  datatype Errno = Done | EINVAL | ENOMEM

  predicate Real(uid: nat) {
    uid != 0 && uid != OVERFLOW_UID
  }

  function Less(): (nat, nat) -> bool {
    (a, b) => a < b
  }

  /** What a finished table looks like. */
  ghost predicate IsTable(t: seq<nat>) {
    && |t| <= SLOT_MAX && StrictlySorted(Less(), t)
    && forall i :: 0 <= i < |t| ==> Real(t[i])
  }

  /** The table of a request: its UIDs, the reserved ones left out. */
  ghost predicate FilteredFrom(request: seq<nat>, t: seq<nat>) {
    IsTable(t) && forall x :: x in t <==> x in request && Real(x)
  }

  lemma LessIsTotal()
    ensures StrictTotal(Less()) && StrictWeak(Less())
  {
  }

  lemma PreparedIsTable(kept: seq<nat>, ordered: seq<nat>)
    requires multiset(ordered) == multiset(kept) && |kept| <= SLOT_MAX && Sorted(Less(), ordered)
    requires forall x :: x in kept ==> Real(x)
    ensures IsTable(DropRepeats(ordered))
    ensures forall x :: x in DropRepeats(ordered) <==> x in kept
  {
    assert |ordered| == |multiset(ordered)| == |kept|;
    LessIsTotal();
    DropRepeatsSorted(Less(), ordered);
    forall x ensures x in DropRepeats(ordered) <==> x in kept {
      SameElements(ordered, kept, x);
    }
    var r := DropRepeats(ordered);
    forall i | 0 <= i < |r| ensures Real(r[i]) {
      assert r[i] in kept;
    }
  }

  class Table {
    const sorted: array<nat>
    var count: nat

    ghost predicate Valid()
      reads this, sorted
    {
      sorted.Length == SLOT_MAX && count <= SLOT_MAX && IsTable(sorted[..count])
    }

    ghost function Contents(): (t: seq<nat>)
      reads this, sorted
      requires Valid()
    {
      sorted[..count]
    }

    constructor ()
      ensures Valid() && fresh(sorted) && Contents() == []
    {
      sorted := new nat[SLOT_MAX];
      count := 0;
    }

    /** Drops UID 0 and the overflow UID, keeping order. */
    static method Filter(n: nat, uids: seq<nat>, tmp: array<nat>) returns (m: nat)
      requires n <= |uids| == SLOT_MAX == tmp.Length
      modifies tmp
      ensures m <= n
      ensures forall x :: x in tmp[..m] <==> x in uids[..n] && Real(x)
    {
      m := 0;
      for i := 0 to n
        invariant m <= i
        invariant forall x :: x in tmp[..m] <==> x in uids[..i] && Real(x)
      {
        assert uids[..i + 1] == uids[..i] + [uids[i]];
        if Real(uids[i]) {
          ghost var was := tmp[..m];
          tmp[m] := uids[i];
          m := m + 1;
          assert tmp[..m] == was + [uids[i]];
        }
      }
    }

    /** Filter, sort and compact into the scratch array. */
    static method Prepare(n: nat, uids: seq<nat>, tmp: array<nat>) returns (m: nat)
      requires n <= |uids| == SLOT_MAX == tmp.Length
      modifies tmp
      ensures m <= SLOT_MAX && FilteredFrom(uids[..n], tmp[..m])
    {
      m := Filter(n, uids, tmp);
      LessIsTotal();
      ghost var kept := tmp[..m];
      Sort(Less(), tmp, m);
      ghost var ordered := tmp[..m];
      m := UniqueKeys(tmp, m);
      PreparedIsTable(kept, ordered);
    }

    /** fluxrs_set_uids. */
    method SetUids(n: nat, uids: seq<nat>, memory: bool) returns (code: Errno)
      requires Valid() && |uids| == SLOT_MAX
      modifies this, sorted
      ensures Valid()
      ensures code == if n > SLOT_MAX then EINVAL else if !memory then ENOMEM else Done
      ensures code != Done ==> Contents() == old(Contents())
      ensures code == Done ==> FilteredFrom(uids[..n], Contents())
      ensures code == Done ==> forall x :: x in Contents() <==> x in uids[..n] && x != 0 && x != 65534
    {
      if n > SLOT_MAX {
        return EINVAL;
      }
      if !memory {
        return ENOMEM;
      }
      var tmp := new nat[SLOT_MAX];
      var m := Prepare(n, uids, tmp);
      ghost var table := tmp[..m];
      count := 0;
      forall i | 0 <= i < m {
        sorted[i] := tmp[i];
      }
      count := m;
      assert Contents() == table;
      return Done;
    }

    /** fluxrs_clear_uids. */
    method Clear()
      requires Valid()
      modifies this
      ensures Valid() && Contents() == []
    {
      count := 0;
    }

    /** uid_selected with nobody writing. */
    method Selected(uid: nat) returns (hit: bool)
      requires Valid()
      ensures hit <==> uid in Contents()
      ensures uid == 0 || uid == 65534 ==> !hit
    {
      if !Real(uid) {
        return false;
      }
      ghost var t := sorted[..count];
      var lo, hi := 0, count;
      while lo < hi
        invariant lo <= hi <= count
        invariant forall i :: 0 <= i < lo ==> t[i] < uid
        invariant forall i :: hi <= i < count ==> uid < t[i]
      {
        var mid := lo + (hi - lo) / 2;
        var v := sorted[mid];
        assert v == t[mid];
        assert forall i :: 0 <= i < mid ==> Less()(t[i], t[mid]);
        assert forall i :: mid < i < count ==> Less()(t[mid], t[i]);
        if v == uid {
          return true;
        }
        if v < uid {
          lo := mid + 1;
        } else {
          hi := mid;
        }
      }
      return false;
    }
  }

  // ------------------------------------------------- the same, one word at a time

  datatype Pc = Start | Searching(lo: nat, hi: nat) | Answered(hit: bool)

  /** A hook running uid_selected. `seen` gathers the tables published or being
      written since it read the count, `first` is what the count covered then,
      and `quiet` says that no rewrite has overlapped it. */
  datatype Reader = Reader(uid: nat, pc: Pc, probes: nat, seen: set<seq<nat>>, first: seq<nat>, quiet: bool)

  /** A rewrite under way: the new table and the words already in place. */
  datatype Copy = Copy(table: seq<nat>, copied: set<nat>)

  datatype State = State(words: seq<nat>, count: nat, copying: Option<Copy>, readers: map<nat, Reader>, fault: bool)

  datatype Step =
    | StartRewrite(request: seq<nat>, table: seq<nat>)
    | CopyWord(i: nat)
    | Publish
    | ClearCount
    | Begin(id: nat, uid: nat)
    | ReadCount(id: nat)
    | ReadWord(id: nat)

  ghost predicate Enabled(s: State, step: Step) {
    match step
    case StartRewrite(request, table) => s.copying.None? && |request| <= SLOT_MAX && FilteredFrom(request, table)
    case CopyWord(i) => s.copying.Some? && i < |s.copying.value.table|
    case Publish => s.copying.Some? && forall i :: 0 <= i < |s.copying.value.table| ==> i in s.copying.value.copied
    case ClearCount => true
    case Begin(id, _) => id !in s.readers
    case ReadCount(id) => id in s.readers && s.readers[id].pc.Start?
    case ReadWord(id) => id in s.readers && s.readers[id].pc.Searching?
  }

  /** The table published, or the one being written. */
  function TableOf(s: State): seq<nat> {
    if s.copying.Some? then s.copying.value.table else s.words[..Min(s.count, |s.words|)]
  }

  function Min(a: nat, b: nat): nat {
    if a < b then a else b
  }

  function Overlap(r: Reader, table: seq<nat>): Reader {
    if r.pc.Searching? then r.(seen := r.seen + {table}, quiet := false) else r
  }

  function Search(lo: nat, hi: nat): Pc {
    if lo < hi then Searching(lo, hi) else Answered(false)
  }

  function Middle(pc: Pc): nat
    requires pc.Searching? && pc.lo <= pc.hi
  {
    pc.lo + (pc.hi - pc.lo) / 2
  }

  function Probe(r: Reader, v: nat): Reader
    requires r.pc.Searching? && r.pc.lo <= r.pc.hi
  {
    var mid := Middle(r.pc);
    var pc := if v == r.uid then Answered(true)
              else if v < r.uid then Search(mid + 1, r.pc.hi)
              else Search(r.pc.lo, mid);
    r.(pc := pc, probes := r.probes + 1)
  }

  ghost function Apply(s: State, step: Step): State
    requires Enabled(s, step)
  {
    match step
    case StartRewrite(_, table) =>
      s.(count := 0, copying := Some(Copy(table, {})),
         readers := (map id | id in s.readers :: Overlap(s.readers[id], table)))
    case CopyWord(i) =>
      var c := s.copying.value;
      if i < |s.words| && i < |c.table|
      then s.(words := s.words[i := c.table[i]], copying := Some(c.(copied := c.copied + {i})))
      else s.(fault := true)
    case Publish => s.(count := |s.copying.value.table|, copying := None)
    case ClearCount => s.(count := 0)
    case Begin(id, uid) =>
      s.(readers := s.readers[id := Reader(uid, if Real(uid) then Start else Answered(false), 0, {}, [], false)])
    case ReadCount(id) =>
      var r := s.readers[id];
      s.(readers := s.readers[id := r.(pc := Search(0, s.count), seen := {TableOf(s)},
                                       first := s.words[..Min(s.count, |s.words|)], quiet := s.copying.None?)])
    case ReadWord(id) =>
      var r := s.readers[id];
      if r.pc.lo <= r.pc.hi && Middle(r.pc) < |s.words|
      then s.(readers := s.readers[id := Probe(r, s.words[Middle(r.pc)])])
      else s.(fault := true)
  }

  // ---------------------------------------------------------------- invariant

  function Pow2(k: nat): nat {
    if k == 0 then 1 else 2 * Pow2(k - 1)
  }

  // No search of 1024 words reads more than this many.
  const MAX_PROBES: nat := 11

  ghost predicate WordsInv(s: State) {
    && |s.words| == SLOT_MAX && s.count <= SLOT_MAX && !s.fault
    && (s.copying.None? ==> IsTable(s.words[..s.count]))
    && (s.copying.Some? ==> s.count == 0 && CopyInv(s.words, s.copying.value))
  }

  ghost predicate CopyInv(words: seq<nat>, c: Copy) {
    && IsTable(c.table) && |words| == SLOT_MAX
    && (forall i :: 0 <= i < |c.table| && i in c.copied ==> words[i] == c.table[i])
  }

  /** Every word a search may read belongs to a table it overlapped. */
  ghost predicate Covered(words: seq<nat>, seen: set<seq<nat>>, i: nat) {
    i < |words| && exists t :: t in seen && i < |t| && words[i] == t[i]
  }

  /** An undisturbed search has not passed the UID it looks for. */
  ghost predicate Narrowed(words: seq<nat>, first: seq<nat>, uid: nat, lo: nat, hi: nat) {
    && |first| <= |words| && words[..|first|] == first && IsTable(first)
    && lo <= hi <= |first|
    && (forall i :: 0 <= i < lo ==> first[i] < uid)
    && (forall i :: hi <= i < |first| ==> uid < first[i])
  }

  ghost predicate ReaderInv(s: State, r: Reader) {
    match r.pc
    case Start => r.probes == 0
    case Searching(lo, hi) =>
      && lo < hi <= |r.first| <= SLOT_MAX && r.probes <= MAX_PROBES
      && hi - lo < Pow2(MAX_PROBES - r.probes)
      && (forall i :: 0 <= i < |r.first| ==> Covered(s.words, r.seen, i))
      && (s.copying.Some? ==> s.copying.value.table in r.seen)
      && (r.quiet ==> s.copying.None? && Narrowed(s.words, r.first, r.uid, lo, hi))
    case Answered(hit) =>
      && r.probes <= MAX_PROBES
      && (hit ==> exists t :: t in r.seen && r.uid in t)
      && (r.quiet ==> (hit <==> r.uid in r.first))
  }

  ghost predicate Inv(s: State) {
    WordsInv(s) && forall id :: id in s.readers ==> ReaderInv(s, s.readers[id])
  }

  lemma WordsKept(s: State, step: Step)
    requires Inv(s) && Enabled(s, step)
    ensures WordsInv(Apply(s, step))
  {
    if step.ReadWord? {
      assert ReaderInv(s, s.readers[step.id]);
    } else if step.Publish? {
      assert s.words[..|s.copying.value.table|] == s.copying.value.table;
    } else if step.ClearCount? {
      assert s.words[..0] == [];
    }
  }

  /** A step of the writer leaves every word a search may read covered. */
  lemma WriterKeepsCover(s: State, step: Step, id: nat, i: nat)
    requires Inv(s) && Enabled(s, step) && id in s.readers && s.readers[id].pc.Searching?
    requires step.StartRewrite? || step.CopyWord? || step.Publish? || step.ClearCount?
    requires i < |s.readers[id].first|
    ensures Covered(Apply(s, step).words, Apply(s, step).readers[id].seen, i)
  {
    hide IsTable, Pow2, Narrowed;
    var r := s.readers[id];
    assert ReaderInv(s, r) && Covered(s.words, r.seen, i);
    var o :| o in r.seen && i < |o| && s.words[i] == o[i];
    assert o in Apply(s, step).readers[id].seen;
  }

  lemma WriterKeepsReader(s: State, step: Step, id: nat)
    requires Inv(s) && Enabled(s, step) && id in s.readers
    requires step.StartRewrite? || step.CopyWord? || step.Publish? || step.ClearCount?
    ensures id in Apply(s, step).readers && ReaderInv(Apply(s, step), Apply(s, step).readers[id])
  {
    hide IsTable, Pow2, Covered;
    var r := s.readers[id];
    assert ReaderInv(s, r);
    if r.pc.Searching? {
      forall i | 0 <= i < |r.first| ensures Covered(Apply(s, step).words, Apply(s, step).readers[id].seen, i) {
        WriterKeepsCover(s, step, id, i);
      }
    }
  }

  /** One comparison of an undisturbed search keeps the UID inside its window. */
  lemma ProbeNarrows(words: seq<nat>, first: seq<nat>, uid: nat, lo: nat, hi: nat, mid: nat)
    requires Narrowed(words, first, uid, lo, hi) && lo <= mid < hi
    ensures words[mid] == uid ==> uid in first
    ensures words[mid] < uid ==> Narrowed(words, first, uid, mid + 1, hi)
    ensures words[mid] > uid ==> Narrowed(words, first, uid, lo, mid)
  {
    assert words[mid] == first[mid];
    assert forall i :: 0 <= i < mid ==> Less()(first[i], first[mid]);
    assert forall i :: mid < i < |first| ==> Less()(first[mid], first[i]);
  }

  lemma EmptyWindow(words: seq<nat>, first: seq<nat>, uid: nat, lo: nat)
    requires Narrowed(words, first, uid, lo, lo)
    ensures uid !in first
  {
    forall i | 0 <= i < |first| ensures first[i] != uid {
      assert i < lo || lo <= i;
    }
  }

  lemma ProbeKeepsReader(s: State, step: Step)
    requires Inv(s) && Enabled(s, step) && step.ReadWord?
    ensures step.id in Apply(s, step).readers && ReaderInv(Apply(s, step), Apply(s, step).readers[step.id])
  {
    hide IsTable, Narrowed;
    var r := s.readers[step.id];
    assert ReaderInv(s, r);
    var mid := Middle(r.pc);
    assert Covered(s.words, r.seen, mid);
    assert r.probes < MAX_PROBES && Pow2(MAX_PROBES - r.probes) == 2 * Pow2(MAX_PROBES - r.probes - 1);
    var q := Probe(r, s.words[mid]);
    if r.quiet {
      ProbeNarrows(s.words, r.first, r.uid, r.pc.lo, r.pc.hi, mid);
      if q.pc == Answered(false) {
        EmptyWindow(s.words, r.first, r.uid, if s.words[mid] < r.uid then mid + 1 else mid);
      }
    }
  }

  lemma CountStartsSearch(s: State, step: Step)
    requires Inv(s) && Enabled(s, step) && step.ReadCount?
    ensures step.id in Apply(s, step).readers && ReaderInv(Apply(s, step), Apply(s, step).readers[step.id])
  {
    hide IsTable;
    var q := Apply(s, step).readers[step.id];
    assert ReaderInv(s, s.readers[step.id]);
    assert Pow2(MAX_PROBES) == 2048;
    if s.copying.None? {
      assert q.first == TableOf(s) == s.words[..s.count];
      forall i | 0 <= i < s.count ensures Covered(s.words, q.seen, i) {
        assert TableOf(s) in q.seen && s.words[i] == TableOf(s)[i];
      }
    }
  }

  lemma InvKept(s: State, step: Step)
    requires Inv(s) && Enabled(s, step)
    ensures Inv(Apply(s, step))
  {
    hide ReaderInv, WordsInv;
    WordsKept(s, step);
    var t := Apply(s, step);
    forall id | id in t.readers ensures ReaderInv(t, t.readers[id]) {
      if step.Begin? || step.ReadCount? || step.ReadWord? {
        if id != step.id {
          OthersUntouched(s, step, id);
        } else if step.ReadCount? {
          CountStartsSearch(s, step);
        } else if step.ReadWord? {
          ProbeKeepsReader(s, step);
        } else {
          BeginStarts(s, step);
        }
      } else {
        WriterKeepsReader(s, step, id);
      }
    }
  }

  lemma OthersUntouched(s: State, step: Step, id: nat)
    requires Inv(s) && Enabled(s, step) && (step.Begin? || step.ReadCount? || step.ReadWord?)
    requires id in s.readers && id != step.id
    ensures id in Apply(s, step).readers && ReaderInv(Apply(s, step), Apply(s, step).readers[id])
  {
    hide IsTable, Covered, Narrowed, Pow2, WordsInv;
    assert ReaderInv(s, s.readers[id]);
  }

  lemma BeginStarts(s: State, step: Step)
    requires Enabled(s, step) && step.Begin?
    ensures step.id in Apply(s, step).readers && ReaderInv(Apply(s, step), Apply(s, step).readers[step.id])
  {
  }

  // --------------------------------------------------------------------- runs

  /** A run starts with an empty table and no search under way. */
  ghost predicate Run(states: seq<State>, steps: seq<Step>) {
    && |states| == |steps| + 1
    && |states[0].words| == SLOT_MAX && states[0].count == 0 && states[0].copying.None?
    && states[0].readers == map[] && !states[0].fault
    && forall i :: 0 <= i < |steps| ==> Enabled(states[i], steps[i]) && states[i + 1] == Apply(states[i], steps[i])
  }

  lemma {:induction false} RunInv(states: seq<State>, steps: seq<Step>, i: nat)
    requires Run(states, steps) && i < |states|
    ensures Inv(states[i])
  {
    hide Apply, Enabled, ReaderInv;
    if i > 0 {
      RunInv(states, steps, i - 1);
      hide Inv;
      InvKept(states[i - 1], steps[i - 1]);
    } else {
      assert states[0].words[..0] == [];
    }
  }

  /** Past its first read a search only ever gains a table that starts being written. */
  lemma SeenGrows(s: State, step: Step, id: nat)
    requires Enabled(s, step) && id in s.readers && !s.readers[id].pc.Start?
    ensures var t := Apply(s, step);
            && id in t.readers && !t.readers[id].pc.Start?
            && t.readers[id].uid == s.readers[id].uid && t.readers[id].first == s.readers[id].first
            && (forall o :: o in t.readers[id].seen ==> o in s.readers[id].seen || o == TableOf(t))
            && (!step.StartRewrite? ==> t.readers[id].quiet == s.readers[id].quiet)
  {
  }

  lemma {:induction false} SeenComesFromRun(states: seq<State>, steps: seq<Step>, i: nat, j: nat, id: nat, o: seq<nat>)
    requires Run(states, steps) && i < j < |states| && steps[i] == ReadCount(id)
    ensures id in states[j].readers && !states[j].readers[id].pc.Start?
    ensures id in states[i].readers && states[j].readers[id].uid == states[i].readers[id].uid
    ensures o in states[j].readers[id].seen ==> exists k :: i <= k <= j && o == TableOf(states[k])
    decreases j
  {
    if j == i + 1 {
      assert states[j] == Apply(states[i], steps[i]);
      assert o in states[j].readers[id].seen ==> o == TableOf(states[i]);
    } else {
      hide Apply, Enabled;
      SeenComesFromRun(states, steps, i, j - 1, id, o);
      SeenGrows(states[j - 1], steps[j - 1], id);
      assert states[j] == Apply(states[j - 1], steps[j - 1]);
    }
  }

  /** A hit names a UID of some table that was published, or being written, between
      the read of the count and the answer. */
  lemma HitNamesOverlappingTable(states: seq<State>, steps: seq<Step>, i: nat, j: nat, id: nat)
    requires Run(states, steps) && i < j < |states| && steps[i] == ReadCount(id)
    requires id in states[j].readers && states[j].readers[id].pc == Answered(true)
    ensures id in states[i].readers
    ensures exists k :: i <= k <= j && states[i].readers[id].uid in TableOf(states[k])
  {
    hide Apply, Enabled;
    RunInv(states, steps, j);
    var r := states[j].readers[id];
    assert ReaderInv(states[j], r);
    var o :| o in r.seen && r.uid in o;
    SeenComesFromRun(states, steps, i, j, id, o);
  }

  lemma {:induction false} QuietStays(states: seq<State>, steps: seq<Step>, i: nat, j: nat, id: nat)
    requires Run(states, steps) && i < j < |states| && steps[i] == ReadCount(id) && states[i].copying.None?
    requires forall k :: i < k < j ==> !steps[k].StartRewrite?
    ensures id in states[j].readers && !states[j].readers[id].pc.Start? && states[j].readers[id].quiet
    ensures id in states[i].readers && states[j].readers[id].uid == states[i].readers[id].uid
    ensures states[j].readers[id].first == TableOf(states[i])
    decreases j
  {
    if j == i + 1 {
      assert states[j] == Apply(states[i], steps[i]);
    } else {
      hide Apply, Enabled;
      QuietStays(states, steps, i, j - 1, id);
      SeenGrows(states[j - 1], steps[j - 1], id);
      assert states[j] == Apply(states[j - 1], steps[j - 1]);
    }
  }

  /** The request of the last rewrite that had begun by step i. */
  function Pending(steps: seq<Step>, i: nat): seq<nat>
    requires i <= |steps|
  {
    if i == 0 then [] else if steps[i - 1].StartRewrite? then steps[i - 1].request else Pending(steps, i - 1)
  }

  /** The request last published by step i, if it has not been cleared since. */
  function LastRequest(steps: seq<Step>, i: nat): seq<nat>
    requires i <= |steps|
  {
    if i == 0 then []
    else
      match steps[i - 1]
      case Publish => Pending(steps, i - 1)
      case ClearCount => []
      case _ => LastRequest(steps, i - 1)
  }

  /** An idle table is the filtered request last published; a table being written is
      that of the pending one. */
  lemma {:induction false} TableOfLastRequest(states: seq<State>, steps: seq<Step>, i: nat)
    requires Run(states, steps) && i < |states|
    ensures FilteredFrom(if states[i].copying.Some? then Pending(steps, i) else LastRequest(steps, i), TableOf(states[i]))
  {
    hide IsTable;
    RunInv(states, steps, i);
    if i > 0 {
      TableOfLastRequest(states, steps, i - 1);
      RunInv(states, steps, i - 1);
      assert states[i] == Apply(states[i - 1], steps[i - 1]);
      hide ReaderInv;
      match steps[i - 1]
      case CopyWord(_) =>
      case Publish => assert TableOf(states[i]) == TableOf(states[i - 1]);
      case _ =>
    }
  }

  /** With no rewrite overlapping it, a search answers exactly for the request that was
      last published when it read the count. */
  lemma UndisturbedIsExact(states: seq<State>, steps: seq<Step>, i: nat, j: nat, id: nat)
    requires Run(states, steps) && i < j < |states| && steps[i] == ReadCount(id) && states[i].copying.None?
    requires forall k :: i < k < j ==> !steps[k].StartRewrite?
    requires id in states[j].readers && states[j].readers[id].pc.Answered?
    ensures id in states[i].readers
    ensures states[j].readers[id].pc.hit <==> states[i].readers[id].uid in TableOf(states[i])
    ensures var uid := states[i].readers[id].uid;
            states[j].readers[id].pc.hit <==> uid in LastRequest(steps, i) && Real(uid)
  {
    hide Apply, Enabled;
    RunInv(states, steps, j);
    QuietStays(states, steps, i, j, id);
    assert ReaderInv(states[j], states[j].readers[id]);
    TableOfLastRequest(states, steps, i);
  }

  // ------------------------------------------------- misses during a rewrite

  /** A search that reads the count during a rewrite misses every UID. */
  lemma {:induction false} RewriteHidesAll(states: seq<State>, steps: seq<Step>, i: nat, j: nat, id: nat)
    requires Run(states, steps) && i < j < |states| && steps[i] == ReadCount(id) && states[i].copying.Some?
    ensures id in states[j].readers && states[j].readers[id].pc == Answered(false)
    decreases j
  {
    if j == i + 1 {
      RunInv(states, steps, i);
      assert states[j] == Apply(states[i], steps[i]);
    } else {
      RewriteHidesAll(states, steps, i, j - 1, id);
      assert states[j] == Apply(states[j - 1], steps[j - 1]);
    }
  }

  /** A selected UID is missed only by a search that a rewrite overlaps. */
  lemma MissNeedsRewrite(states: seq<State>, steps: seq<Step>, i: nat, j: nat, id: nat)
    requires Run(states, steps) && i < j < |states| && steps[i] == ReadCount(id)
    requires id in states[i].readers && states[i].readers[id].uid in TableOf(states[i])
    requires id in states[j].readers && states[j].readers[id].pc == Answered(false)
    ensures states[i].copying.Some? || exists k :: i < k < j && steps[k].StartRewrite?
  {
    hide Apply, Enabled, ReaderInv;
    if states[i].copying.None? && forall k :: i < k < j ==> !steps[k].StartRewrite? {
      UndisturbedIsExact(states, steps, i, j, id);
    }
  }

  /** One more step of a run. */
  lemma Extended(states: seq<State>, steps: seq<Step>, step: Step) returns (ss: seq<State>, ts: seq<Step>)
    requires Run(states, steps) && Enabled(states[|steps|], step)
    ensures ts == steps + [step] && ss == states + [Apply(states[|steps|], step)] && Run(ss, ts)
  {
    hide Apply, Enabled;
    ts, ss := steps + [step], states + [Apply(states[|steps|], step)];
    forall i | 0 <= i < |ts| ensures Enabled(ss[i], ts[i]) && ss[i + 1] == Apply(ss[i], ts[i]) {
      assert i < |steps| ==> ss[i] == states[i] && ts[i] == steps[i];
    }
  }

  /** The search of uid that read the count in step i has missed it by the end of the
      run, though every table it overlapped holds it. */
  ghost predicate Missed(states: seq<State>, steps: seq<Step>, i: nat, id: nat, uid: nat) {
    && i < |steps| && |states| == |steps| + 1 && steps[i] == ReadCount(id)
    && id in states[|steps|].readers
    && states[|steps|].readers[id].pc == Answered(false) && states[|steps|].readers[id].uid == uid
    && forall k :: i <= k <= |steps| ==> uid in TableOf(states[k])
  }

  /** Publishing a table again, unchanged, is enough for that: after every run any
      selected UID may be missed by the next search. */
  lemma RepublishingHides(states: seq<State>, steps: seq<Step>, uid: nat, id: nat) returns (ss: seq<State>, ts: seq<Step>)
    requires Run(states, steps) && states[|steps|].copying.None? && id !in states[|steps|].readers
    requires uid in TableOf(states[|steps|])
    ensures Run(ss, ts) && states < ss
    ensures var table := TableOf(states[|steps|]);
            ts == steps + [StartRewrite(table, table), Begin(id, uid), ReadCount(id)]
    ensures Missed(ss, ts, |steps| + 2, id, uid)
  {
    var n := |steps|;
    var table := TableOf(states[n]);
    PublishedIsTable(states, steps, n);
    hide FilteredFrom, Real, Run, TableOf, Apply, Enabled;
    assert Enabled(states[n], StartRewrite(table, table)) by { PublishedFits(states[n], table); }
    ss, ts := Extended(states, steps, StartRewrite(table, table));
    HiddenSteps(states[n], table, uid, id);
    ss, ts := Extended(ss, ts, Begin(id, uid));
    ss, ts := Extended(ss, ts, ReadCount(id));
  }

  lemma PublishedFits(s: State, table: seq<nat>)
    requires s.copying.None? && FilteredFrom(table, table)
    ensures Enabled(s, StartRewrite(table, table))
  {
  }

  /** The three states that follow. */
  lemma HiddenSteps(s: State, table: seq<nat>, uid: nat, id: nat)
    requires Enabled(s, StartRewrite(table, table)) && id !in s.readers && Real(uid)
    ensures var a := Apply(s, StartRewrite(table, table));
            && Enabled(a, Begin(id, uid)) && Enabled(Apply(a, Begin(id, uid)), ReadCount(id))
            && var b := Apply(a, Begin(id, uid)); var c := Apply(b, ReadCount(id));
               && TableOf(b) == TableOf(c) == table
               && id in c.readers && c.readers[id].pc == Answered(false) && c.readers[id].uid == uid
  {
  }

  lemma PublishedIsTable(states: seq<State>, steps: seq<Step>, i: nat)
    requires Run(states, steps) && i < |states|
    ensures var t := TableOf(states[i]); FilteredFrom(t, t)
  {
    TableOfLastRequest(states, steps, i);
  }

  lemma CopyRest(states: seq<State>, steps: seq<Step>, i: nat) returns (ss: seq<State>, ts: seq<Step>)
    requires Run(states, steps) && states[|steps|].copying.Some? && |states[|steps|].words| == SLOT_MAX
    requires var c := states[|steps|].copying.value;
             i <= |c.table| <= SLOT_MAX && forall k :: 0 <= k < i ==> k in c.copied && states[|steps|].words[k] == c.table[k]
    ensures Run(ss, ts) && ss[|ts|].copying.None? && ss[|ts|].readers == states[|steps|].readers
    ensures TableOf(ss[|ts|]) == states[|steps|].copying.value.table
    decreases |states[|steps|].copying.value.table| - i
  {
    var s := states[|steps|];
    hide Run;
    if i == |s.copying.value.table| {
      ss, ts := Extended(states, steps, Publish);
      assert s.words[..i] == s.copying.value.table;
    } else {
      ss, ts := Extended(states, steps, CopyWord(i));
      ss, ts := CopyRest(ss, ts, i + 1);
    }
  }

  /** Every table can be published. */
  lemma AnyTableIsPublished(table: seq<nat>)
    requires FilteredFrom(table, table)
    ensures exists ss: seq<State>, ts: seq<Step> ::
              && |ss| == |ts| + 1 && Run(ss, ts)
              && ss[|ts|].copying.None? && ss[|ts|].readers == map[] && TableOf(ss[|ts|]) == table
  {
    var blank := State(seq(SLOT_MAX, _ => 0), 0, None, map[], false);
    var s1, t1 := Extended([blank], [], StartRewrite(table, table));
    assert s1[1].readers == map[];
    var ss, ts := CopyRest(s1, t1, 0);
  }

  /** No read is out of bounds, and no search makes more than eleven, however the
      table changes underneath it. */
  lemma SearchIsBounded(states: seq<State>, steps: seq<Step>, i: nat, id: nat)
    requires Run(states, steps) && i < |states| && id in states[i].readers
    ensures !states[i].fault
    ensures states[i].readers[id].probes <= MAX_PROBES
    ensures states[i].readers[id].pc.Searching? ==> states[i].readers[id].probes < MAX_PROBES
  {
    hide Apply, Enabled;
    RunInv(states, steps, i);
    var r := states[i].readers[id];
    assert ReaderInv(states[i], r);
    assert Pow2(0) == 1;
  }
}
