/** When a search that began on an idle UID table may miss a UID that the table holds:
    exactly when a rewrite puts another word on the path the search takes to it. */
module UidMisses {
  import opened Wrappers
  import opened KernelSort
  import opened UidTable

  /** Index j is read on the way from the window [lo, hi) to index p. */
  predicate Visits(lo: nat, hi: nat, p: nat, j: nat)
    requires lo <= p < hi
    decreases hi - lo
  {
    var mid := lo + (hi - lo) / 2;
    j == mid || (mid < p && Visits(mid + 1, hi, p, j)) || (p < mid && Visits(lo, mid, p, j))
  }

  /** Word j of table t sends a search for the UID u at place p the wrong way. */
  predicate Strays(t: seq<nat>, u: nat, p: nat, j: nat) {
    j < |t| && if j == p then t[j] != u else j < p && t[j] > u
  }

  /** Copying t over a table of n words, with u at place p, leads no search for u astray. */
  ghost predicate Harmless(n: nat, p: nat, u: nat, t: seq<nat>)
    requires p < n
  {
    forall j :: Visits(0, n, p, j) ==> !Strays(t, u, p, j)
  }

  lemma {:induction false} PathReaches(lo: nat, hi: nat, p: nat)
    requires lo <= p < hi
    ensures Visits(lo, hi, p, p)
    decreases hi - lo
  {
    var mid := lo + (hi - lo) / 2;
    if mid < p {
      PathReaches(mid + 1, hi, p);
    } else if p < mid {
      PathReaches(lo, mid, p);
    }
  }

  /** Where t reaches place p, it is harmless exactly if u keeps that place. */
  lemma PlaceDecides(n: nat, p: nat, u: nat, t: seq<nat>)
    requires p < n && p < |t| && IsTable(t)
    ensures Harmless(n, p, u, t) <==> t[p] == u
  {
    PathReaches(0, n, p);
    assert Strays(t, u, p, p) <==> t[p] != u;
    forall j: nat | j < p ensures t[j] < t[p] {
      assert Less()(t[j], t[p]);
    }
  }

  // ------------------------------------------------------------- never missed

  /** Every table the search has overlapped is harmless. */
  ghost predicate SafelySeen(n: nat, p: nat, u: nat, r: Reader)
    requires p < n
  {
    r.uid == u && forall t :: t in r.seen ==> IsTable(t) && Harmless(n, p, u, t)
  }

  /** The search is on the path to p, or it has found u. */
  ghost predicate OnPath(n: nat, p: nat, r: Reader)
    requires p < n
  {
    match r.pc
    case Start => false
    case Searching(lo, hi) => lo <= p < hi <= n && forall j :: Visits(lo, hi, p, j) ==> Visits(0, n, p, j)
    case Answered(hit) => hit
  }

  /** A covered word on the path never leads off it. */
  lemma ProbeStaysOnPath(words: seq<nat>, n: nat, p: nat, u: nat, r: Reader)
    requires p < n && SafelySeen(n, p, u, r) && OnPath(n, p, r) && r.pc.Searching?
    requires Middle(r.pc) < |words| && Covered(words, r.seen, Middle(r.pc))
    ensures OnPath(n, p, Probe(r, words[Middle(r.pc)]))
  {
    var mid := Middle(r.pc);
    assert Visits(r.pc.lo, r.pc.hi, p, mid);
    var t :| t in r.seen && mid < |t| && words[mid] == t[mid];
    assert !Strays(t, u, p, mid);
    if p < mid {
      PathReaches(0, n, p);
      assert !Strays(t, u, p, p) && t[p] == u;
      assert Less()(t[p], t[mid]);
    }
  }

  lemma StepStaysOnPath(s: State, step: Step, id: nat, n: nat, p: nat, u: nat)
    requires Inv(s) && Enabled(s, step) && id in s.readers && p < n
    requires SafelySeen(n, p, u, s.readers[id]) && OnPath(n, p, s.readers[id])
    requires step.StartRewrite? ==> Harmless(n, p, u, step.table)
    ensures var r := Apply(s, step).readers[id]; SafelySeen(n, p, u, r) && OnPath(n, p, r)
  {
    hide IsTable, Harmless, Visits, Inv;
    if step.ReadWord? && step.id == id {
      ReadIsCovered(s, id);
      ProbeStaysOnPath(s.words, n, p, u, s.readers[id]);
      hide OnPath;
    }
  }

  lemma ReadIsCovered(s: State, id: nat)
    requires Inv(s) && id in s.readers && s.readers[id].pc.Searching?
    ensures var r := s.readers[id];
            r.pc.lo <= r.pc.hi && Middle(r.pc) < |s.words| && Covered(s.words, r.seen, Middle(r.pc))
  {
    hide Covered;
    assert ReaderInv(s, s.readers[id]);
  }

  lemma SearchStartsOnPath(s: State, id: nat, p: nat, u: nat)
    requires Inv(s) && Enabled(s, ReadCount(id)) && s.copying.None? && s.readers[id].uid == u
    requires p < |TableOf(s)| && TableOf(s)[p] == u
    ensures var r := Apply(s, ReadCount(id)).readers[id]; var n := |TableOf(s)|;
            SafelySeen(n, p, u, r) && OnPath(n, p, r)
  {
    var t := TableOf(s);
    assert t == s.words[..s.count] && IsTable(t);
    PlaceDecides(|t|, p, u, t);
    hide IsTable, Harmless;
  }

  lemma {:induction false} SearchStaysOnPath(states: seq<State>, steps: seq<Step>, i: nat, j: nat, id: nat, p: nat)
    requires Run(states, steps) && i < j < |states| && steps[i] == ReadCount(id) && states[i].copying.None?
    requires id in states[i].readers && p < |TableOf(states[i])| && TableOf(states[i])[p] == states[i].readers[id].uid
    requires forall k :: i < k < j && steps[k].StartRewrite? ==>
               Harmless(|TableOf(states[i])|, p, states[i].readers[id].uid, steps[k].table)
    ensures id in states[j].readers
    ensures SafelySeen(|TableOf(states[i])|, p, states[i].readers[id].uid, states[j].readers[id])
    ensures OnPath(|TableOf(states[i])|, p, states[j].readers[id])
    decreases j
  {
    hide Apply, Enabled, Inv, OnPath, SafelySeen, Harmless;
    RunInv(states, steps, j - 1);
    assert Enabled(states[j - 1], steps[j - 1]) && states[j] == Apply(states[j - 1], steps[j - 1]);
    var n, u := |TableOf(states[i])|, states[i].readers[id].uid;
    if j == i + 1 {
      SearchStartsOnPath(states[i], id, p, u);
      ReaderStays(states[i], steps[i], id);
    } else {
      SearchStaysOnPath(states, steps, i, j - 1, id, p);
      StepStaysOnPath(states[j - 1], steps[j - 1], id, n, p, u);
      ReaderStays(states[j - 1], steps[j - 1], id);
    }
  }

  lemma ReaderStays(s: State, step: Step, id: nat)
    requires Enabled(s, step) && id in s.readers
    ensures id in Apply(s, step).readers
  {
  }

  /** A search that begins on an idle table holding its UID finds it, if every rewrite
      begun before it answers is harmless. */
  lemma HarmlessRewritesAreUnseen(states: seq<State>, steps: seq<Step>, i: nat, j: nat, id: nat, p: nat)
    requires Run(states, steps) && i < j < |states| && steps[i] == ReadCount(id) && states[i].copying.None?
    requires id in states[i].readers && p < |TableOf(states[i])| && TableOf(states[i])[p] == states[i].readers[id].uid
    requires forall k :: i < k < j && steps[k].StartRewrite? ==>
               Harmless(|TableOf(states[i])|, p, states[i].readers[id].uid, steps[k].table)
    ensures id in states[j].readers && states[j].readers[id].pc != Answered(false)
  {
    hide Run, TableOf, Harmless;
    SearchStaysOnPath(states, steps, i, j, id, p);
  }

  // ---------------------------------------------------------------- the converse

  /** ts goes on from steps, clears nothing, and rewrites the table to nothing but t. */
  ghost predicate GoesOn(states: seq<State>, steps: seq<Step>, ss: seq<State>, ts: seq<Step>, t: seq<nat>) {
    && Run(ss, ts) && states <= ss && steps <= ts
    && forall k :: |steps| <= k < |ts| ==> Beside(ts[k], t)
  }

  predicate Beside(step: Step, t: seq<nat>) {
    !step.ClearCount? && (step.StartRewrite? ==> step.table == t)
  }

  lemma GoesOnTwice(
    states: seq<State>, steps: seq<Step>, ss: seq<State>, ts: seq<Step>, ss': seq<State>, ts': seq<Step>, t: seq<nat>)
    requires GoesOn(states, steps, ss, ts, t) && GoesOn(ss, ts, ss', ts', t)
    ensures GoesOn(states, steps, ss', ts', t)
  {
    hide Run;
    forall k | |steps| <= k < |ts'| ensures Beside(ts'[k], t) {
      assert k < |ts| ==> ts'[k] == ts[k];
    }
  }

  lemma OneMore(states: seq<State>, steps: seq<Step>, step: Step, t: seq<nat>) returns (ss: seq<State>, ts: seq<Step>)
    requires Run(states, steps) && Enabled(states[|steps|], step)
    requires Beside(step, t)
    ensures GoesOn(states, steps, ss, ts, t) && ts == steps + [step]
    ensures ss[|ts|] == Apply(states[|steps|], step)
  {
    hide Run, Apply, Enabled;
    ss, ts := Extended(states, steps, step);
    RunLength(ss, ts);
    RunLength(states, steps);
  }

  lemma RunLength(states: seq<State>, steps: seq<Step>)
    requires Run(states, steps)
    ensures |states| == |steps| + 1
  {
  }

  /** The search of u by reader id, over the given words. */
  predicate Looking(s: State, words: seq<nat>, id: nat, u: nat, pc: Pc) {
    s.words == words && id in s.readers && s.readers[id].uid == u && s.readers[id].pc == pc
  }

  function PcAfter(pc: Pc, u: nat, v: nat): Pc
    requires pc.Searching? && pc.lo <= pc.hi
  {
    if v == u then Answered(true)
    else if v < u then Search(Middle(pc) + 1, pc.hi)
    else Search(pc.lo, Middle(pc))
  }

  lemma ReadOne(states: seq<State>, steps: seq<Step>, words: seq<nat>, id: nat, u: nat, pc: Pc, t: seq<nat>)
      returns (ss: seq<State>, ts: seq<Step>)
    requires Run(states, steps) && Looking(states[|steps|], words, id, u, pc)
    requires pc.Searching? && pc.lo <= pc.hi && Middle(pc) < |words|
    ensures GoesOn(states, steps, ss, ts, t) && ss[|ts|].copying == states[|steps|].copying
    ensures Looking(ss[|ts|], words, id, u, PcAfter(pc, u, words[Middle(pc)]))
  {
    hide Run;
    ss, ts := OneMore(states, steps, ReadWord(id), t);
  }

  /** Words below u stand before place p, and words above it behind. */
  predicate Parted(words: seq<nat>, u: nat, p: nat, lo: nat, hi: nat) {
    && lo <= p < hi <= |words| && words[p] == u
    && (forall k :: lo <= k < p ==> words[k] < u) && (forall k :: p < k < hi ==> words[k] > u)
  }

  /** An undisturbed search gets to every index on its path. */
  lemma {:induction false} SearchTo(
    states: seq<State>, steps: seq<Step>, words: seq<nat>, id: nat, u: nat, lo: nat, hi: nat, p: nat, j: nat, t: seq<nat>)
      returns (ss: seq<State>, ts: seq<Step>, lo': nat, hi': nat)
    requires Run(states, steps) && Looking(states[|steps|], words, id, u, Searching(lo, hi))
    requires Parted(words, u, p, lo, hi) && Visits(lo, hi, p, j)
    ensures GoesOn(states, steps, ss, ts, t) && ss[|ts|].copying == states[|steps|].copying
    ensures Looking(ss[|ts|], words, id, u, Searching(lo', hi'))
    ensures lo' < hi' && j == lo' + (hi' - lo') / 2 && Parted(words, u, p, lo', hi')
    decreases hi - lo
  {
    hide Run, Looking;
    var mid := lo + (hi - lo) / 2;
    if j == mid {
      ss, ts, lo', hi' := states, steps, lo, hi;
    } else {
      var s1, t1 := ReadOne(states, steps, words, id, u, Searching(lo, hi), t);
      if mid < p {
        ss, ts, lo', hi' := SearchTo(s1, t1, words, id, u, mid + 1, hi, p, j, t);
      } else {
        ss, ts, lo', hi' := SearchTo(s1, t1, words, id, u, lo, mid, p, j, t);
      }
      hide GoesOn;
      GoesOnTwice(states, steps, s1, t1, ss, ts, t);
    }
  }

  /** Every word of the window lies on one side of u. */
  predicate OneSided(words: seq<nat>, u: nat, lo: nat, hi: nat) {
    && hi <= |words|
    && ((forall k :: lo <= k < hi ==> words[k] < u) || (forall k :: lo <= k < hi ==> words[k] > u))
  }

  lemma {:induction false} RunsOut(
    states: seq<State>, steps: seq<Step>, words: seq<nat>, id: nat, u: nat, lo: nat, hi: nat, t: seq<nat>)
      returns (ss: seq<State>, ts: seq<Step>)
    requires Run(states, steps) && lo <= hi && OneSided(words, u, lo, hi)
    requires Looking(states[|steps|], words, id, u, Search(lo, hi))
    ensures GoesOn(states, steps, ss, ts, t) && Looking(ss[|ts|], words, id, u, Answered(false))
    decreases hi - lo
  {
    hide Run, Looking;
    if lo == hi {
      ss, ts := states, steps;
    } else {
      var mid := lo + (hi - lo) / 2;
      var s1, t1 := ReadOne(states, steps, words, id, u, Searching(lo, hi), t);
      if words[mid] < u {
        ss, ts := RunsOut(s1, t1, words, id, u, mid + 1, hi, t);
      } else {
        ss, ts := RunsOut(s1, t1, words, id, u, lo, mid, t);
      }
      hide GoesOn;
      GoesOnTwice(states, steps, s1, t1, ss, ts, t);
    }
  }

  /** A rewrite to t begins and puts word j in place. */
  lemma PutWord(states: seq<State>, steps: seq<Step>, words: seq<nat>, id: nat, u: nat, pc: Pc, j: nat, t: seq<nat>)
      returns (ss: seq<State>, ts: seq<Step>)
    requires Run(states, steps) && Looking(states[|steps|], words, id, u, pc) && pc.Searching?
    requires states[|steps|].copying.None? && j < |words| && j < |t| && FilteredFrom(t, t)
    ensures GoesOn(states, steps, ss, ts, t) && Looking(ss[|ts|], words[j := t[j]], id, u, pc)
  {
    hide FilteredFrom, Run;
    ShortTable(t);
    var s1, t1 := OneMore(states, steps, StartRewrite(t, t), t);
    RunLength(s1, t1);
    assert Looking(s1[|t1|], words, id, u, pc);
    ss, ts := OneMore(s1, t1, CopyWord(j), t);
    RunLength(ss, ts);
    assert Looking(ss[|ts|], words[j := t[j]], id, u, pc);
    hide GoesOn;
    GoesOnTwice(states, steps, s1, t1, ss, ts, t);
  }

  lemma ShortTable(t: seq<nat>)
    requires FilteredFrom(t, t)
    ensures |t| <= SLOT_MAX
  {
  }

  /** Once word j has led it astray, the search runs out. */
  lemma AstrayIsOneSided(words: seq<nat>, u: nat, p: nat, lo: nat, hi: nat, t: seq<nat>, j: nat)
    requires lo < hi && j == lo + (hi - lo) / 2 && Parted(words, u, p, lo, hi) && Strays(t, u, p, j)
    ensures var changed := words[j := t[j]];
            t[j] != u && if t[j] < u then OneSided(changed, u, j + 1, hi) else OneSided(changed, u, lo, j)
  {
  }

  /** An unsafe rewrite can be timed so that the search misses u. */
  lemma StrayIsMissed(
    states: seq<State>, steps: seq<Step>, words: seq<nat>, id: nat, u: nat, n: nat, p: nat, j: nat, t: seq<nat>)
      returns (ss: seq<State>, ts: seq<Step>)
    requires Run(states, steps) && states[|steps|].copying.None? && Looking(states[|steps|], words, id, u, Searching(0, n))
    requires Parted(words, u, p, 0, n) && Visits(0, n, p, j) && Strays(t, u, p, j) && FilteredFrom(t, t)
    ensures GoesOn(states, steps, ss, ts, t) && id in ss[|ts|].readers
    ensures ss[|ts|].readers[id].uid == u && ss[|ts|].readers[id].pc == Answered(false)
  {
    hide Run, FilteredFrom, GoesOn;
    var s1, t1, lo, hi := SearchTo(states, steps, words, id, u, 0, n, p, j, t);
    GoesOnRuns(states, steps, s1, t1, t);
    AstrayIsOneSided(words, u, p, lo, hi, t, j);
    hide Parted, Visits, Strays;
    var pc := Searching(lo, hi);
    var changed := words[j := t[j]];
    var s2, t2 := PutWord(s1, t1, words, id, u, pc, j, t);
    GoesOnRuns(s1, t1, s2, t2, t);
    var s3, t3 := ReadOne(s2, t2, changed, id, u, pc, t);
    GoesOnRuns(s2, t2, s3, t3, t);
    if t[j] < u {
      ss, ts := RunsOut(s3, t3, changed, id, u, j + 1, hi, t);
    } else {
      ss, ts := RunsOut(s3, t3, changed, id, u, lo, j, t);
    }
    GoesOnTwice(states, steps, s1, t1, s2, t2, t);
    GoesOnTwice(states, steps, s2, t2, s3, t3, t);
    GoesOnTwice(states, steps, s3, t3, ss, ts, t);
    GoesOnRuns(s3, t3, ss, ts, t);
  }

  lemma GoesOnRuns(states: seq<State>, steps: seq<Step>, ss: seq<State>, ts: seq<Step>, t: seq<nat>)
    requires GoesOn(states, steps, ss, ts, t)
    ensures Run(ss, ts) && |ss| == |ts| + 1 && states <= ss && steps <= ts
  {
  }

  // -------------------------------------------------------------- exactly when

  /** A search of u begins, beside rewrites to t only, and ends without finding it. */
  ghost predicate MissesBeside(
    states: seq<State>, steps: seq<Step>, ss: seq<State>, ts: seq<Step>, id: nat, u: nat, t: seq<nat>)
  {
    && GoesOn(states, steps, ss, ts, t) && |ts| >= |steps| + 2 && |ss| == |ts| + 1
    && ts[|steps|] == Begin(id, u) && ts[|steps| + 1] == ReadCount(id)
    && id in ss[|ts|].readers && ss[|ts|].readers[id].pc == Answered(false) && ss[|ts|].readers[id].uid == u
  }

  lemma BegunSearch(states: seq<State>, steps: seq<Step>, id: nat, p: nat, t: seq<nat>)
      returns (ss: seq<State>, ts: seq<Step>)
    requires Run(states, steps) && states[|steps|].copying.None? && id !in states[|steps|].readers
    requires p < |TableOf(states[|steps|])|
    ensures var u := TableOf(states[|steps|])[p];
            GoesOn(states, steps, ss, ts, t) && ts == steps + [Begin(id, u), ReadCount(id)]
    ensures var n, u := |TableOf(states[|steps|])|, TableOf(states[|steps|])[p];
            && ss[|ts|].copying.None? && Looking(ss[|ts|], states[|steps|].words, id, u, Searching(0, n))
            && Parted(states[|steps|].words, u, p, 0, n)
  {
    var s := states[|steps|];
    var table := TableOf(s);
    RunInv(states, steps, |steps|);
    assert table == s.words[..s.count] && IsTable(table);
    PublishedIsTable(states, steps, |steps|);
    assert Parted(s.words, table[p], p, 0, |table|) by {
      assert forall k :: 0 <= k < p ==> Less()(table[k], table[p]);
      assert forall k :: p < k < |table| ==> Less()(table[p], table[k]);
    }
    hide Run, Inv, IsTable, FilteredFrom, TableOf;
    var s1, t1 := OneMore(states, steps, Begin(id, table[p]), t);
    assert s1[|t1|].readers[id].pc == Start;
    ss, ts := OneMore(s1, t1, ReadCount(id), t);
    hide GoesOn;
    GoesOnTwice(states, steps, s1, t1, ss, ts, t);
  }

  /** For every run that ends idle, every UID of its table and every next table: a search
      for the UID that begins now can miss it beside rewrites to that table, exactly when
      the table is not harmless to its place. */
  lemma MissedExactly(states: seq<State>, steps: seq<Step>, id: nat, p: nat, t: seq<nat>)
    requires Run(states, steps) && states[|steps|].copying.None? && id !in states[|steps|].readers
    requires p < |TableOf(states[|steps|])| && FilteredFrom(t, t)
    ensures var table := TableOf(states[|steps|]);
            (exists ss, ts :: MissesBeside(states, steps, ss, ts, id, table[p], t))
            <==> !Harmless(|table|, p, table[p], t)
  {
    RunLength(states, steps);
    hide Run, FilteredFrom, TableOf, GoesOn, Inv;
    var s := states[|steps|];
    var n, u := |TableOf(s)|, TableOf(s)[p];
    if ss, ts :| MissesBeside(states, steps, ss, ts, id, u, t) {
      if Harmless(n, p, u, t) {
        HarmlessIsFound(states, steps, ss, ts, id, p, t);
      }
    }
    if !Harmless(n, p, u, t) {
      var j :| Visits(0, n, p, j) && Strays(t, u, p, j);
      var s1, t1 := BegunSearch(states, steps, id, p, t);
      GoesOnRuns(states, steps, s1, t1, t);
      var ss, ts := StrayIsMissed(s1, t1, s.words, id, u, n, p, j, t);
      GoesOnTwice(states, steps, s1, t1, ss, ts, t);
      GoesOnRuns(s1, t1, ss, ts, t);
      assert MissesBeside(states, steps, ss, ts, id, u, t);
    }
  }

  lemma HarmlessIsFound(states: seq<State>, steps: seq<Step>, ss: seq<State>, ts: seq<Step>, id: nat, p: nat, t: seq<nat>)
    requires Run(states, steps) && states[|steps|].copying.None? && p < |TableOf(states[|steps|])|
    requires Harmless(|TableOf(states[|steps|])|, p, TableOf(states[|steps|])[p], t)
    ensures !MissesBeside(states, steps, ss, ts, id, TableOf(states[|steps|])[p], t)
  {
    var n, u := |steps|, TableOf(states[|steps|])[p];
    if MissesBeside(states, steps, ss, ts, id, u, t) {
      assert ss[n] == states[n] && ss[n + 1] == Apply(ss[n], ts[n]) && Enabled(ss[n], ts[n]);
      assert Enabled(ss[n + 1], ts[n + 1]);
      RunInv(ss, ts, n);
      assert TableOf(ss[n + 1]) == TableOf(states[n]) && ss[n + 1].copying.None? && ss[n + 1].readers[id].uid == u;
      hide Run, Harmless, Inv;
      HarmlessRewritesAreUnseen(ss, ts, n + 1, |ts|, id, p);
    }
  }

  lemma TableStep(s: State, step: Step)
    requires Inv(s) && Enabled(s, step) && !step.ClearCount?
    ensures TableOf(Apply(s, step)) == if step.StartRewrite? then step.table else TableOf(s)
  {
    if step.Publish? {
      assert s.words[..|s.copying.value.table|] == s.copying.value.table;
    }
  }

  /** Beside rewrites to t there are only two tables. */
  lemma {:induction false} TwoTables(
    states: seq<State>, steps: seq<Step>, ss: seq<State>, ts: seq<Step>, t: seq<nat>, k: nat)
    requires GoesOn(states, steps, ss, ts, t) && |steps| < |states| && |steps| <= k <= |ts| < |ss|
    ensures TableOf(ss[k]) == t || TableOf(ss[k]) == TableOf(states[|steps|])
  {
    hide Apply, Enabled, Inv;
    if k > |steps| {
      TwoTables(states, steps, ss, ts, t, k - 1);
      RunInv(ss, ts, k - 1);
      assert Enabled(ss[k - 1], ts[k - 1]) && ss[k] == Apply(ss[k - 1], ts[k - 1]) && Beside(ts[k - 1], t);
      TableStep(ss[k - 1], ts[k - 1]);
    }
  }

  /** So after every run a UID may be missed, by a search that read the count while the
      table was idle, when the next table holds it at another place. */
  lemma MovedUidMayBeMissed(states: seq<State>, steps: seq<Step>, id: nat, p: nat, t: seq<nat>)
    requires Run(states, steps) && states[|steps|].copying.None? && id !in states[|steps|].readers
    requires p < |TableOf(states[|steps|])| && FilteredFrom(t, t) && TableOf(states[|steps|])[p] in t
    requires p < |t| && t[p] != TableOf(states[|steps|])[p]
    ensures exists ss: seq<State>, ts: seq<Step> ::
              && states <= ss && Run(ss, ts) && Missed(ss, ts, |steps| + 1, id, TableOf(states[|steps|])[p])
              && ss[|steps| + 1].copying.None?
  {
    var n, table := |steps|, TableOf(states[|steps|]);
    var u := table[p];
    PlaceDecides(|table|, p, u, t);
    MissedExactly(states, steps, id, p, t);
    var ss, ts :| MissesBeside(states, steps, ss, ts, id, u, t);
    assert ss[n] == states[n] && ss[n + 1] == Apply(ss[n], ts[n]);
    hide Apply, Enabled, TableOf, Harmless, FilteredFrom;
    forall k: nat | n <= k <= |ts| ensures u in TableOf(ss[k]) {
      TwoTables(states, steps, ss, ts, t, k);
    }
  }

  /** For instance u when the table [u, v] is rewritten to [w, u]. */
  lemma SelectedUidMayBeTorn(u: nat, v: nat, w: nat, id: nat)
    requires w < u < v && Real(u) && Real(v) && Real(w)
    ensures exists states: seq<State>, steps: seq<Step>, i: nat ::
              Run(states, steps) && Missed(states, steps, i, id, u) && states[i].copying.None?
  {
    assert FilteredFrom([u, v], [u, v]) && FilteredFrom([w, u], [w, u]);
    hide Run, Apply, Enabled, Real, FilteredFrom;
    AnyTableIsPublished([u, v]);
    var states: seq<State>, steps: seq<Step> :|
      && |states| == |steps| + 1 && Run(states, steps)
      && states[|steps|].copying.None? && states[|steps|].readers == map[] && TableOf(states[|steps|]) == [u, v];
    MovedUidMayBeMissed(states, steps, id, 0, [w, u]);
  }
}
