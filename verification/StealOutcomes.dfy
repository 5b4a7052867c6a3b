/** What becomes of each packet of the steal queue, and why: which ones the hook takes,
    which ones the worker frees, and that every other one is delivered. */
module StealOutcomes {
  import opened Wrappers
  import opened StealQueue

  /** Some step of the run has the property, in the state it is taken in. */
  ghost predicate Somewhere(cpus: nat, steps: seq<Step>, happens: (State, Step) -> bool) {
    exists k: nat :: k < |steps| && HappensAt(cpus, steps, k, happens)
  }

  ghost predicate HappensAt(cpus: nat, steps: seq<Step>, k: nat, happens: (State, Step) -> bool)
    requires k < |steps|
  {
    After(cpus, steps[..k]).Some? && happens(After(cpus, steps[..k]).value, steps[k])
  }

  lemma SomewhereSplits(cpus: nat, steps: seq<Step>, happens: (State, Step) -> bool)
    requires After(cpus, steps).Some? && steps != []
    ensures var front, last := steps[..|steps| - 1], steps[|steps| - 1];
            && After(cpus, front).Some? && Enabled(cpus, After(cpus, front).value, last)
            && After(cpus, steps).value == Apply(cpus, After(cpus, front).value, last)
            && (Somewhere(cpus, steps, happens) <==>
                  Somewhere(cpus, front, happens) || happens(After(cpus, front).value, last))
  {
    hide Apply, Enabled;
    var n, front := |steps| - 1, steps[..|steps| - 1];
    forall k: nat | k < n ensures HappensAt(cpus, steps, k, happens) <==> HappensAt(cpus, front, k, happens) {
      assert front[..k] == steps[..k];
    }
    assert HappensAt(cpus, steps, n, happens) <==> happens(After(cpus, front).value, steps[n]);
  }

  // ------------------------------------------------------------------ the hook

  /** The test of the hook at this place fails. */
  predicate Declines(s: State, pc: HookPc, yes: bool) {
    match pc
    case ReadLive => !s.live
    case Classify => !yes
    case ReadListeners => !s.listenersSet || !yes
    case CheckLength => |s.queue| >= QMAX
    case _ => false
  }

  function HookStage(pc: HookPc): nat {
    match pc
    case ReadLive => 1
    case Classify => 2
    case ReadListeners => 3
    case CheckLength => 4
    case Enqueue => 5
    case Schedule => 6
    case Stolen => 7
    case Accepted => 0
  }

  predicate DeclinedHere(s: State, step: Step, skb: nat) {
    step.HookStep? && step.skb == skb && skb in s.hooks.pcs && Declines(s, s.hooks.pcs[skb], step.yes)
  }

  /** The hook of skb stands at place n and its test succeeds. */
  predicate TakenHere(s: State, step: Step, skb: nat, n: nat) {
    && step.HookStep? && step.skb == skb && skb in s.hooks.pcs
    && HookStage(s.hooks.pcs[skb]) == n && !Declines(s, s.hooks.pcs[skb], step.yes)
  }

  function Declined(skb: nat): (State, Step) -> bool {
    (s, step) => DeclinedHere(s, step, skb)
  }

  function Taken(skb: nat, n: nat): (State, Step) -> bool {
    (s, step) => TakenHere(s, step, skb, n)
  }

  predicate Accepts(s: State, skb: nat) {
    skb in s.hooks.pcs && s.hooks.pcs[skb].Accepted?
  }

  predicate HookPast(s: State, skb: nat, n: nat) {
    skb in s.hooks.pcs && HookStage(s.hooks.pcs[skb]) > n
  }

  lemma HookMovesOn(cpus: nat, s: State, step: Step, skb: nat, n: nat)
    requires Enabled(cpus, s, step)
    ensures Accepts(Apply(cpus, s, step), skb) <==> Accepts(s, skb) || DeclinedHere(s, step, skb)
    ensures n > 0 && HookPast(Apply(cpus, s, step), skb, n) ==> HookPast(s, skb, n) || TakenHere(s, step, skb, n)
  {
    hide Perform, EffectOf;
  }

  /** A packet is left to the stack exactly if one of the hook's tests failed for it. */
  lemma {:induction false} AcceptedExactly(cpus: nat, steps: seq<Step>, skb: nat)
    requires After(cpus, steps).Some?
    ensures Accepts(After(cpus, steps).value, skb) <==> Somewhere(cpus, steps, Declined(skb))
  {
    if steps != [] {
      SomewhereSplits(cpus, steps, Declined(skb));
      var front := steps[..|steps| - 1];
      HookMovesOn(cpus, After(cpus, front).value, steps[|steps| - 1], skb, 1);
      hide Apply, Enabled, After, Somewhere, Accepts, DeclinedHere;
      AcceptedExactly(cpus, front, skb);
    }
  }

  /** A stolen packet has passed every one of them. */
  lemma {:induction false} StolenPassedAll(cpus: nat, steps: seq<Step>, skb: nat, n: nat)
    requires After(cpus, steps).Some? && 1 <= n < 7 && HookPast(After(cpus, steps).value, skb, n)
    ensures Somewhere(cpus, steps, Taken(skb, n))
  {
    SomewhereSplits(cpus, steps, Taken(skb, n));
    var front := steps[..|steps| - 1];
    HookMovesOn(cpus, After(cpus, front).value, steps[|steps| - 1], skb, n);
    hide Apply, Enabled, After, Somewhere, HookPast, TakenHere;
    if HookPast(After(cpus, front).value, skb, n) {
      StolenPassedAll(cpus, front, skb, n);
    }
  }

  // ---------------------------------------------------------------- the worker

  /** The worker has a reason to give up its packet here: the module is not live, the
      listeners are unset or a symbol is missing, the packet or its time-wait socket is
      gone, no socket is found, or a test of the socket or the route fails. */
  predicate Refuses(s: State, w: Worker, a: Answer) {
    match w
    case ReadLiveFor(_) => !s.live
    case ReadReadyFor(_) => !s.listenersSet || a == No
    case LookupEstablished(_) => a == Gone
    case TimeWait(_, _) => a == Gone
    case LookupListener(_) => a != Yes
    case Found(_, _) => a != Yes
    case Transparent(_, _) => a != Yes
    case Prepared(_, _) => a != Yes
    case _ => false
  }

  predicate RefusedHere(s: State, step: Step, skb: nat) {
    step.WorkerStep? && SkbOf(s.work.at) == Some(skb) && Refuses(s, s.work.at, step.answer)
  }

  predicate PurgedHere(s: State, step: Step, skb: nat) {
    step.PurgeOne? && s.queue != [] && s.queue[0] == skb
  }

  function GivenUp(skb: nat): (State, Step) -> bool {
    (s, step) => RefusedHere(s, step, skb) || PurgedHere(s, step, skb)
  }

  /** What the worker holds after one step of a packet's way. */
  function NextWork(s: State, a: Answer): Work
    requires !s.work.at.Idle? && !s.work.at.Dequeue?
  {
    Perform(s.work, EffectOf(s, s.work.at, s.work.nextRef, a))
  }

  /** What the worker does at each place, by the kind of effect. */
  lemma EffectKind(s: State, a: Answer)
    requires !s.work.at.Idle? && !s.work.at.Dequeue?
    ensures var e, w := EffectOf(s, s.work.at, s.work.nextRef, a), s.work.at;
            && ((e.Drop? || e.PutAndDrop?) <==> Refuses(s, w, a))
            && ((e.Take? || e.Trade?) <==> FindsSocket(w, a))
            && (e.Assign? <==> w.Routed?) && (e.Deliver? <==> w.Assigned?)
  {
  }

  lemma PerformFrees(w: Work, e: Effect, skb: nat)
    requires Fits(w, e)
    ensures Perform(w, e).freed[skb] ==
              w.freed[skb] + if (e.Drop? || e.PutAndDrop?) && SkbOf(w.at) == Some(skb) then 1 else 0
  {
  }

  lemma WorkerFrees(s: State, a: Answer, skb: nat)
    requires !s.work.at.Idle? && !s.work.at.Dequeue?
    ensures NextWork(s, a).freed[skb] ==
              s.work.freed[skb] + if SkbOf(s.work.at) == Some(skb) && Refuses(s, s.work.at, a) then 1 else 0
  {
    EffectKind(s, a);
    EffectFits(s, a);
    PerformFrees(s.work, EffectOf(s, s.work.at, s.work.nextRef, a), skb);
    hide EffectOf, Perform, Refuses, Fits;
  }

  lemma FreedHere(cpus: nat, s: State, step: Step, skb: nat)
    requires Enabled(cpus, s, step)
    ensures var t := Apply(cpus, s, step);
            t.work.freed[skb] == s.work.freed[skb] + if RefusedHere(s, step, skb) || PurgedHere(s, step, skb) then 1 else 0
  {
    if step.WorkerStep? && !s.work.at.Idle? && !s.work.at.Dequeue? {
      WorkerFrees(s, step.answer, skb);
    }
    hide HookMoves, Perform, EffectOf, HookNext;
  }

  /** A packet is freed exactly if the worker had a reason to give it up or a purge took
      it from the queue. */
  lemma {:induction false} FreedExactly(cpus: nat, steps: seq<Step>, skb: nat)
    requires After(cpus, steps).Some?
    ensures After(cpus, steps).value.work.freed[skb] > 0 <==> Somewhere(cpus, steps, GivenUp(skb))
  {
    if steps != [] {
      SomewhereSplits(cpus, steps, GivenUp(skb));
      var front := steps[..|steps| - 1];
      FreedHere(cpus, After(cpus, front).value, steps[|steps| - 1], skb);
      hide Apply, Enabled, After, Somewhere, RefusedHere, PurgedHere;
      FreedExactly(cpus, front, skb);
    }
  }

  /** Once it has left queue and worker, a stolen packet is delivered exactly if it was not
      given up. */
  lemma DeliveredExactly(cpus: nat, steps: seq<Step>, skb: nat)
    requires After(cpus, steps).Some?
    ensures var s := After(cpus, steps).value;
            skb in s.hooks.pcs && s.hooks.pcs[skb].Stolen? && skb !in s.queue && SkbOf(s.work.at) != Some(skb) ==>
              (s.work.delivered[skb] == 1 <==> !Somewhere(cpus, steps, GivenUp(skb)))
  {
    FreedExactly(cpus, steps, skb);
    StolenConserved(cpus, steps, skb);
    hide After, Somewhere;
    var s := After(cpus, steps).value;
    assert skb !in s.queue ==> multiset(s.queue)[skb] == 0;
  }

  function Stage(w: Worker): nat {
    match w
    case Idle => 0
    case Dequeue => 0
    case ReadLiveFor(_) => 1
    case ReadReadyFor(_) => 2
    case LookupEstablished(_) => 3
    case TimeWait(_, _) => 3
    case LookupListener(_) => 3
    case Found(_, _) => 4
    case Transparent(_, _) => 5
    case Prepared(_, _) => 6
    case Routed(_, _) => 7
    case Assigned(_) => 8
  }

  /** The worker passes stage n with skb: the test made there succeeds, and the lookup
      finds a socket, which a time-wait handler has not taken away. */
  predicate PassedHere(s: State, step: Step, skb: nat, n: nat) {
    && step.WorkerStep? && SkbOf(s.work.at) == Some(skb) && Stage(s.work.at) == n
    && !Refuses(s, s.work.at, step.answer)
    && (s.work.at.LookupEstablished? ==> step.answer == Yes)
  }

  function Passed(skb: nat, n: nat): (State, Step) -> bool {
    (s, step) => PassedHere(s, step, skb, n)
  }

  /** The packet is delivered, or the worker is past stage n with it. */
  predicate Past(s: State, skb: nat, n: nat) {
    s.work.delivered[skb] > 0 || (SkbOf(s.work.at) == Some(skb) && Stage(s.work.at) > n)
  }

  lemma WorkerAdvances(s: State, a: Answer, skb: nat, n: nat)
    requires !s.work.at.Idle? && !s.work.at.Dequeue? && 0 < n < 9
    ensures var w := NextWork(s, a);
            w.delivered[skb] > 0 || (SkbOf(w.at) == Some(skb) && Stage(w.at) > n) ==>
              Past(s, skb, n) || PassedHere(s, WorkerStep(a), skb, n)
  {
  }

  lemma StageByStage(cpus: nat, s: State, step: Step, skb: nat, n: nat)
    requires Enabled(cpus, s, step) && n > 0 && Past(Apply(cpus, s, step), skb, n) && n < 9
    ensures Past(s, skb, n) || PassedHere(s, step, skb, n)
  {
    if step.WorkerStep? && !s.work.at.Idle? && !s.work.at.Dequeue? {
      WorkerAdvances(s, step.answer, skb, n);
    }
    hide HookMoves, Perform, EffectOf, HookNext;
  }

  /** A delivered packet has passed every stage, in particular every test. */
  lemma {:induction false} DeliveredPassedAll(cpus: nat, steps: seq<Step>, skb: nat, n: nat)
    requires After(cpus, steps).Some? && 1 <= n <= 8 && Past(After(cpus, steps).value, skb, n)
    ensures Somewhere(cpus, steps, Passed(skb, n))
  {
    SomewhereSplits(cpus, steps, Passed(skb, n));
    var front := steps[..|steps| - 1];
    StageByStage(cpus, After(cpus, front).value, steps[|steps| - 1], skb, n);
    hide Apply, Enabled, After, Somewhere, Past, PassedHere;
    if Past(After(cpus, front).value, skb, n) {
      DeliveredPassedAll(cpus, front, skb, n);
    }
  }

  // --------------------------------------------------------------- its socket

  /** A socket found for the packet in hand: by the lookup of a connection, by its
      time-wait handler, or by the lookup of the listener. */
  predicate FindsSocket(w: Worker, a: Answer) {
    || (w.LookupEstablished? && (a == Yes || a == TimeWaitSock))
    || (w.TimeWait? && a == Swapped)
    || (w.LookupListener? && a == Yes)
  }

  /** The worker assigns sk, the last socket looked up, to skb. */
  predicate AssignedHere(s: State, step: Step, skb: nat, sk: nat) {
    step.WorkerStep? && s.work.at == Routed(skb, sk) && sk + 1 == s.work.nextRef
  }

  function Assigning(skb: nat, sk: nat): (State, Step) -> bool {
    (s, step) => AssignedHere(s, step, skb, sk)
  }

  ghost predicate HoldsLatest(w: Work) {
    RefOf(w.at).Some? ==> RefOf(w.at).value + 1 == w.nextRef
  }

  lemma PerformKeepsLatest(w: Work, e: Effect, skb: nat, sk: nat)
    requires Fits(w, e) && HoldsLatest(w)
    ensures var v := Perform(w, e);
            && HoldsLatest(v) && v.owned[sk] >= w.owned[sk] && (e.Assign? && e.sk == sk ==> v.owned[sk] > 0)
            && v.nextRef == w.nextRef + (if e.Take? || e.Trade? then 1 else 0)
  {
  }

  lemma AssignedAtRouted(s: State, a: Answer, skb: nat)
    requires !s.work.at.Idle? && !s.work.at.Dequeue?
    ensures var w := NextWork(s, a);
            w.delivered[skb] > 0 || (SkbOf(w.at) == Some(skb) && Stage(w.at) > 7) ==>
              Past(s, skb, 7) || (s.work.at.Routed? && s.work.at.skb == skb)
    ensures s.work.at.Routed? ==> EffectOf(s, s.work.at, s.work.nextRef, a) == Assign(s.work.at.sk, s.work.at.skb)
  {
    WorkerAdvances(s, a, skb, 7);
    hide Perform;
  }

  lemma WorkerKeepsRefs(s: State, a: Answer, skb: nat, sk: nat)
    requires !s.work.at.Idle? && !s.work.at.Dequeue? && HoldsLatest(s.work)
    ensures var w := NextWork(s, a);
            && HoldsLatest(w) && w.owned[sk] >= s.work.owned[sk]
            && w.nextRef == s.work.nextRef + (if FindsSocket(s.work.at, a) then 1 else 0)
            && (s.work.at == Routed(skb, sk) ==> w.owned[sk] > 0)
            && (w.delivered[skb] > 0 || (SkbOf(w.at) == Some(skb) && Stage(w.at) > 7) ==>
                  Past(s, skb, 7) || (s.work.at.Routed? && s.work.at.skb == skb))
  {
    EffectKind(s, a);
    EffectFits(s, a);
    AssignedAtRouted(s, a, skb);
    PerformKeepsLatest(s.work, EffectOf(s, s.work.at, s.work.nextRef, a), skb, sk);
    hide EffectOf, Perform, Refuses, Fits, FindsSocket, HoldsLatest;
  }

  lemma RefStep(cpus: nat, s: State, step: Step, skb: nat, sk: nat)
    requires Enabled(cpus, s, step) && HoldsLatest(s.work)
    ensures var t := Apply(cpus, s, step);
            && HoldsLatest(t.work) && t.work.owned[sk] >= s.work.owned[sk]
            && t.work.nextRef == s.work.nextRef + (if step.WorkerStep? && FindsSocket(s.work.at, step.answer) then 1 else 0)
            && (AssignedHere(s, step, skb, sk) ==> t.work.owned[sk] > 0)
            && (Past(t, skb, 7) ==>
                  Past(s, skb, 7) || (s.work.at.Routed? && AssignedHere(s, step, skb, s.work.at.sk)))
  {
    if step.WorkerStep? && !s.work.at.Idle? && !s.work.at.Dequeue? {
      WorkerKeepsRefs(s, step.answer, skb, sk);
    }
    hide HookMoves, Perform, EffectOf, HookNext;
  }

  lemma {:induction false} RunHoldsLatest(cpus: nat, steps: seq<Step>)
    requires After(cpus, steps).Some?
    ensures HoldsLatest(After(cpus, steps).value.work)
  {
    if steps != [] {
      RunHoldsLatest(cpus, steps[..|steps| - 1]);
      RefStep(cpus, After(cpus, steps[..|steps| - 1]).value, steps[|steps| - 1], 0, 0);
      hide Apply, Enabled, HoldsLatest, Past;
    }
  }

  /** A delivered packet was assigned a socket, the last one looked up at that time. */
  lemma {:induction false} DeliveredWithItsSocket(cpus: nat, steps: seq<Step>, skb: nat)
    requires After(cpus, steps).Some? && Past(After(cpus, steps).value, skb, 7)
    ensures exists sk: nat ::
              Somewhere(cpus, steps, Assigning(skb, sk)) && After(cpus, steps).value.work.owned[sk] > 0
  {
    var front, last := steps[..|steps| - 1], steps[|steps| - 1];
    SomewhereSplits(cpus, steps, Assigning(skb, 0));
    var s := After(cpus, front).value;
    RunHoldsLatest(cpus, front);
    RefStep(cpus, s, last, skb, 0);
    hide Apply, Enabled, After, Somewhere, HoldsLatest, Past, AssignedHere, FindsSocket;
    if Past(s, skb, 7) {
      DeliveredWithItsSocket(cpus, front, skb);
      var sk: nat :| Somewhere(cpus, front, Assigning(skb, sk)) && s.work.owned[sk] > 0;
      RefStep(cpus, s, last, skb, sk);
      SomewhereSplits(cpus, steps, Assigning(skb, sk));
    } else {
      RefStep(cpus, s, last, skb, s.work.at.sk);
      SomewhereSplits(cpus, steps, Assigning(skb, s.work.at.sk));
    }
  }

  /** And the worker comes to an end with each packet. */
  lemma PassEnds(s: State, a: Answer)
    requires !s.work.at.Idle? && !s.work.at.Dequeue?
    ensures var w := NextWork(s, a).at;
            || w == Dequeue || Stage(w) > Stage(s.work.at)
            || (s.work.at.LookupEstablished? && (w.TimeWait? || w.LookupListener?))
  {
  }

  /** A purge under way can always be completed: it empties the queue and ends. */
  lemma {:induction false} PurgeCompletes(cpus: nat, steps: seq<Step>)
    requires After(cpus, steps).Some? && After(cpus, steps).value.closer.Purging?
    ensures exists more ::
              && steps <= more && After(cpus, more).Some? && After(cpus, more).value.closer.Away?
              && After(cpus, more).value.queue == []
    decreases |After(cpus, steps).value.queue|
  {
    hide After;
    var step := if After(cpus, steps).value.queue == [] then PurgeDone else PurgeOne;
    Extend(cpus, steps, step);
    if step.PurgeOne? {
      PurgeCompletes(cpus, steps + [step]);
    } else {
      assert steps <= steps + [step];
    }
  }

  /** Whether the last opening of the control node is later than its last closing. */
  function OpenNow(steps: seq<Step>): bool {
    steps != [] &&
    match steps[|steps| - 1]
    case Open => true
    case Close => false
    case _ => OpenNow(steps[..|steps| - 1])
  }

  /** The listeners as last set, if the node has not been closed since. */
  function ListenersNow(steps: seq<Step>): bool {
    steps != [] &&
    match steps[|steps| - 1]
    case SetListeners(on) => on
    case Close => false
    case _ => ListenersNow(steps[..|steps| - 1])
  }

  lemma SwitchStep(cpus: nat, s: State, step: Step)
    requires Enabled(cpus, s, step)
    ensures Apply(cpus, s, step).live == (if step.Open? then true else if step.Close? then false else s.live)
    ensures Apply(cpus, s, step).listenersSet ==
              (if step.SetListeners? then step.set_ else if step.Close? then false else s.listenersSet)
  {
    hide Perform, EffectOf, HookMoves, HookNext;
  }

  /** The two switches that hook and worker read are those of the control node. */
  lemma {:induction false} SwitchesFollowControl(cpus: nat, steps: seq<Step>)
    requires After(cpus, steps).Some?
    ensures After(cpus, steps).value.live == OpenNow(steps)
    ensures After(cpus, steps).value.listenersSet == ListenersNow(steps)
  {
    if steps != [] {
      var front := steps[..|steps| - 1];
      SwitchStep(cpus, After(cpus, front).value, steps[|steps| - 1]);
      hide Apply, Enabled;
      SwitchesFollowControl(cpus, front);
    }
  }
}
