/** The steal queue at stage 6: LOCAL_OUT hooks that hand packets over, the one
    work item that delivers or drops them, and the purge that runs when the control
    node closes. One shared access per step. A lookup returns a counted reference;
    the time-wait handler, the transparency test and the assignment consume it as
    their callers rely on. */
module StealQueue {
  import opened Wrappers

  const QMAX: nat := 4096

  datatype HookPc = ReadLive | Classify | ReadListeners | CheckLength | Enqueue | Schedule | Accepted | Stolen

  /** fluxrs_steal_one on packet `skb`; `sk` is the reference it holds. */
  datatype Worker =
    | Idle
    | Dequeue
    | ReadLiveFor(skb: nat)
    | ReadReadyFor(skb: nat)
    | LookupEstablished(skb: nat)
    | TimeWait(skb: nat, sk: nat)
    | LookupListener(skb: nat)
    | Found(skb: nat, sk: nat)
    | Transparent(skb: nat, sk: nat)
    | Prepared(skb: nat, sk: nat)
    | Routed(skb: nat, sk: nat)
    | Assigned(skb: nat)

  datatype Closer = Away | Cancelling | Purging

  /** The worker's side: its place in the code and what became of packets and of
      references. */
  datatype Work = Work(
    at: Worker,
    freed: multiset<nat>,
    delivered: multiset<nat>,
    nextRef: nat,
    put: multiset<nat>,
    owned: multiset<nat>,
    stolenCount: nat)

  /** The hooks' side. `running` and `passed` are the hooks under way and those
      between the length check and the enqueue; `handed` is every packet taken. */
  datatype Hooks = Hooks(pcs: map<nat, HookPc>, running: set<nat>, passed: set<nat>, handed: set<nat>)

  datatype State = State(
    live: bool,
    listenersSet: bool,
    queue: seq<nat>,
    hooks: Hooks,
    pending: bool,
    work: Work,
    closer: Closer)

  const NO_WORK: Work := Work(Idle, multiset{}, multiset{}, 0, multiset{}, multiset{}, 0)
  const INITIAL: State := State(false, false, [], Hooks(map[], {}, {}, {}), false, NO_WORK, Away)

  /** What the code outside the module answers. */
  datatype Answer = No | Yes | TimeWaitSock | Swapped | Gone

  datatype Step =
    | Arrive(skb: nat)
    | HookStep(skb: nat, yes: bool)
    | StartWorker
    | WorkerStep(answer: Answer)
    | Open
    | SetListeners(set_: bool)
    | Close
    | Unregister
    | Cancelled
    | PurgeOne
    | PurgeDone

  /** At most `cpus` hooks run at once. */
  predicate Enabled(cpus: nat, s: State, step: Step) {
    match step
    case Arrive(skb) => skb !in s.hooks.pcs && |s.hooks.running| < cpus
    case HookStep(skb, _) => skb in s.hooks.pcs && !Finished(s.hooks.pcs[skb])
    case StartWorker => s.pending && s.work.at.Idle?
    case WorkerStep(_) => !s.work.at.Idle?
    case Open => s.closer.Away?
    case SetListeners(_) => s.closer.Away?
    case Close => s.closer.Away?
    case Unregister => s.closer.Away?
    case Cancelled => s.closer.Cancelling? && s.work.at.Idle?
    case PurgeOne => s.closer.Purging? && s.queue != []
    case PurgeDone => s.closer.Purging? && s.queue == []
  }

  predicate Finished(pc: HookPc) {
    pc.Accepted? || pc.Stolen?
  }

  /** fluxrs_local_out. `yes` stands for the socket, UID, destination and protocol
      tests together, and for the symbols being resolved. */
  function HookNext(s: State, pc: HookPc, yes: bool): HookPc {
    match pc
    case ReadLive => if s.live then Classify else Accepted
    case Classify => if yes then ReadListeners else Accepted
    case ReadListeners => if s.listenersSet && yes then CheckLength else Accepted
    case CheckLength => if |s.queue| >= QMAX then Accepted else Enqueue
    case Enqueue => Schedule
    case Schedule => Stolen
    case _ => pc
  }

  function HookMoves(h: Hooks, skb: nat, pc: HookPc): Hooks
    requires skb in h.pcs
  {
    Hooks(h.pcs[skb := pc],
          if Finished(pc) then h.running - {skb} else h.running,
          if pc.Enqueue? then h.passed + {skb} else h.passed - {skb},
          if pc.Schedule? then h.handed + {skb} else h.handed)
  }

  /** What one worker step does with its packet and its reference. */
  datatype Effect =
    | Go(next: Worker)
    | Take(next: Worker)
    | Trade(sk: nat, next: Worker)
    | Drop(skb: nat)
    | PutAndDrop(sk: nat, skb: nat)
    | Assign(sk: nat, skb: nat)
    | Deliver(skb: nat)

  /** fluxrs_steal_one after the dequeue. A lookup that finds a socket hands out the
      reference `fresh`. */
  function EffectOf(s: State, w: Worker, fresh_: nat, a: Answer): Effect
    requires !w.Idle? && !w.Dequeue?
  {
    match w
    case ReadLiveFor(skb) => if s.live then Go(ReadReadyFor(skb)) else Drop(skb)
    case ReadReadyFor(skb) => if s.listenersSet && a != No then Go(LookupEstablished(skb)) else Drop(skb)
    case LookupEstablished(skb) =>
      // Gone: no IP protocol, no header, no port or no device.
      if a == Gone then Drop(skb)
      else if a == TimeWaitSock then Take(TimeWait(skb, fresh_))
      else if a == Yes then Take(Found(skb, fresh_))
      else Go(LookupListener(skb))
    case TimeWait(skb, sk) =>
      // The handler keeps the socket, trades it for the listener, or drops it.
      if a == Swapped then Trade(sk, Found(skb, fresh_))
      else if a == Gone then PutAndDrop(sk, skb)
      else Go(Found(skb, sk))
    case LookupListener(skb) => if a == Yes then Take(Found(skb, fresh_)) else Drop(skb)
    case Found(skb, sk) => if a == Yes then Go(Transparent(skb, sk)) else PutAndDrop(sk, skb)
    case Transparent(skb, sk) => if a == Yes then Go(Prepared(skb, sk)) else PutAndDrop(sk, skb)
    case Prepared(skb, sk) => if a == Yes then Go(Routed(skb, sk)) else PutAndDrop(sk, skb)
    case Routed(skb, sk) => Assign(sk, skb)
    case Assigned(skb) => Deliver(skb)
  }

  function Perform(w: Work, e: Effect): Work {
    match e
    case Go(next) => w.(at := next)
    case Take(next) => w.(at := next, nextRef := w.nextRef + 1)
    case Trade(sk, next) => w.(at := next, nextRef := w.nextRef + 1, put := w.put + multiset{sk})
    case Drop(skb) => w.(at := Dequeue, freed := w.freed + multiset{skb})
    case PutAndDrop(sk, skb) => w.(at := Dequeue, freed := w.freed + multiset{skb}, put := w.put + multiset{sk})
    case Assign(sk, skb) =>
      w.(at := Assigned(skb), owned := w.owned + multiset{sk}, stolenCount := w.stolenCount + 1)
    case Deliver(skb) => w.(at := Dequeue, delivered := w.delivered + multiset{skb})
  }

  function Apply(cpus: nat, s: State, step: Step): State
    requires Enabled(cpus, s, step)
  {
    match step
    case Arrive(skb) =>
      s.(hooks := s.hooks.(pcs := s.hooks.pcs[skb := ReadLive], running := s.hooks.running + {skb}))
    case HookStep(skb, yes) =>
      var pc := HookNext(s, s.hooks.pcs[skb], yes);
      s.(hooks := HookMoves(s.hooks, skb, pc),
         queue := if pc.Schedule? then s.queue + [skb] else s.queue,
         pending := s.pending || pc.Stolen?)
    case StartWorker => s.(pending := false, work := s.work.(at := Dequeue))
    case WorkerStep(a) =>
      if s.work.at.Dequeue? then
        if s.queue == [] then s.(work := s.work.(at := Idle))
        else s.(queue := s.queue[1..], work := s.work.(at := ReadLiveFor(s.queue[0])))
      else s.(work := Perform(s.work, EffectOf(s, s.work.at, s.work.nextRef, a)))
    case Open => s.(live := true)
    case SetListeners(b) => s.(listenersSet := b)
    case Close => s.(live := false, listenersSet := false, closer := Cancelling)
    case Unregister => s.(closer := Cancelling)
    case Cancelled => s.(pending := false, closer := Purging)
    case PurgeOne => s.(queue := s.queue[1..], work := s.work.(freed := s.work.freed + multiset{s.queue[0]}))
    case PurgeDone => s.(closer := Away)
  }

  // ---------------------------------------------------------------- invariant

  function SkbOf(w: Worker): Option<nat> {
    if w.Idle? || w.Dequeue? then None else Some(w.skb)
  }

  function RefOf(w: Worker): Option<nat> {
    if w.TimeWait? || w.Found? || w.Transparent? || w.Prepared? || w.Routed? then Some(w.sk) else None
  }

  function Times(o: Option<nat>, n: nat): nat {
    if o == Some(n) then 1 else 0
  }

  /** How often the worker's side holds, has freed or has delivered a packet. */
  function Handled(w: Work, skb: nat): nat {
    Times(SkbOf(w.at), skb) + w.freed[skb] + w.delivered[skb]
  }

  /** The same for a looked-up reference: in hand, put or assigned. */
  function Counted(w: Work, sk: nat): nat {
    Times(RefOf(w.at), sk) + w.put[sk] + w.owned[sk]
  }

  /** Every packet taken from the stack is in exactly one place, once. */
  ghost predicate PacketInv(queue: seq<nat>, w: Work, h: Hooks) {
    && (forall p: nat :: multiset(queue)[p] + Handled(w, p) == if p in h.handed then 1 else 0)
    && (forall p :: p in h.handed <==> p in h.pcs && (h.pcs[p].Schedule? || h.pcs[p].Stolen?))
  }

  /** Every reference a lookup returned is in exactly one place, once. */
  ghost predicate RefInv(w: Work) {
    && (forall r: nat :: Counted(w, r) == if r < w.nextRef then 1 else 0)
    && w.stolenCount == |w.owned| == |w.delivered| + (if w.at.Assigned? then 1 else 0)
  }

  ghost predicate LengthInv(cpus: nat, h: Hooks, len: nat) {
    && (forall p :: p in h.running <==> p in h.pcs && !Finished(h.pcs[p]))
    && (forall p :: p in h.passed <==> p in h.pcs && h.pcs[p].Enqueue?)
    && |h.running| <= cpus
    && (len + |h.passed| <= QMAX - 1 + cpus || (len == 0 && h.passed == {}))
  }

  ghost predicate Inv(cpus: nat, s: State) {
    PacketInv(s.queue, s.work, s.hooks) && RefInv(s.work) && LengthInv(cpus, s.hooks, |s.queue|)
  }

  /** An effect fits the place in the code it comes from. */
  predicate Fits(w: Work, e: Effect) {
    match e
    case Go(next) =>
      SkbOf(next) == SkbOf(w.at) && RefOf(next) == RefOf(w.at) && !next.Assigned? && !w.at.Assigned?
    case Take(next) =>
      SkbOf(next) == SkbOf(w.at) && RefOf(w.at) == None && RefOf(next) == Some(w.nextRef) && !w.at.Assigned?
    case Trade(sk, next) =>
      SkbOf(next) == SkbOf(w.at) && RefOf(w.at) == Some(sk) && RefOf(next) == Some(w.nextRef)
    case Drop(skb) => SkbOf(w.at) == Some(skb) && RefOf(w.at) == None && !w.at.Assigned?
    case PutAndDrop(sk, skb) => SkbOf(w.at) == Some(skb) && RefOf(w.at) == Some(sk)
    case Assign(sk, skb) => SkbOf(w.at) == Some(skb) && RefOf(w.at) == Some(sk)
    case Deliver(skb) => w.at == Assigned(skb)
  }

  lemma EffectFits(s: State, a: Answer)
    requires !s.work.at.Idle? && !s.work.at.Dequeue?
    ensures Fits(s.work, EffectOf(s, s.work.at, s.work.nextRef, a))
  {
  }

  lemma PerformConserves(w: Work, e: Effect, n: nat)
    requires Fits(w, e)
    ensures Handled(Perform(w, e), n) == Handled(w, n)
    ensures Counted(Perform(w, e), n) == Counted(w, n) + (if (e.Take? || e.Trade?) && n == w.nextRef then 1 else 0)
  {
  }

  lemma PerformKeepsRefs(w: Work, e: Effect)
    requires Fits(w, e) && RefInv(w)
    ensures RefInv(Perform(w, e))
  {
    forall r: nat
      ensures Counted(Perform(w, e), r) == Counted(w, r) + (if (e.Take? || e.Trade?) && r == w.nextRef then 1 else 0)
    {
      PerformConserves(w, e, r);
    }
    hide Counted;
  }

  lemma WorkKeepsPackets(queue: seq<nat>, w: Work, next: Work, h: Hooks)
    requires PacketInv(queue, w, h)
    requires forall p: nat :: Handled(next, p) == Handled(w, p)
    ensures PacketInv(queue, next, h)
  {
  }

  lemma HeadKeepsPackets(queue: seq<nat>, w: Work, next: Work, h: Hooks)
    requires PacketInv(queue, w, h) && queue != []
    requires forall p: nat :: Handled(next, p) == Handled(w, p) + Times(Some(queue[0]), p)
    ensures PacketInv(queue[1..], next, h)
  {
    hide Handled;
    assert queue == [queue[0]] + queue[1..];
  }

  lemma HookKeepsPackets(queue: seq<nat>, w: Work, h: Hooks, skb: nat, pc: HookPc)
    requires PacketInv(queue, w, h) && skb in h.pcs && !Finished(h.pcs[skb])
    requires pc.Schedule? <==> h.pcs[skb].Enqueue?
    requires pc.Stolen? <==> h.pcs[skb].Schedule?
    ensures PacketInv(if pc.Schedule? then queue + [skb] else queue, w, HookMoves(h, skb, pc))
  {
    hide Handled;
  }

  lemma WorkerKeepsPackets(cpus: nat, s: State, step: Step)
    requires PacketInv(s.queue, s.work, s.hooks) && Enabled(cpus, s, step) && step.WorkerStep?
    ensures var t := Apply(cpus, s, step); PacketInv(t.queue, t.work, t.hooks)
  {
    hide Perform, EffectOf, Fits, HookMoves, PacketInv;
    var t := Apply(cpus, s, step);
    if !s.work.at.Dequeue? {
      EffectFits(s, step.answer);
      forall p: nat ensures Handled(t.work, p) == Handled(s.work, p) {
        PerformConserves(s.work, EffectOf(s, s.work.at, s.work.nextRef, step.answer), p);
      }
      WorkKeepsPackets(s.queue, s.work, t.work, s.hooks);
    } else if s.queue == [] {
      WorkKeepsPackets(s.queue, s.work, t.work, s.hooks);
    } else {
      HeadKeepsPackets(s.queue, s.work, t.work, s.hooks);
    }
  }

  lemma PacketsKept(cpus: nat, s: State, step: Step)
    requires PacketInv(s.queue, s.work, s.hooks) && Enabled(cpus, s, step)
    ensures var t := Apply(cpus, s, step); PacketInv(t.queue, t.work, t.hooks)
  {
    var t := Apply(cpus, s, step);
    if step.WorkerStep? {
      WorkerKeepsPackets(cpus, s, step);
    } else {
      hide HookMoves, PacketInv;
      if step.HookStep? {
        HookKeepsPackets(s.queue, s.work, s.hooks, step.skb, HookNext(s, s.hooks.pcs[step.skb], step.yes));
      } else if step.PurgeOne? {
        HeadKeepsPackets(s.queue, s.work, t.work, s.hooks);
      } else if step.Arrive? {
        ArriveKeepsPackets(s.queue, s.work, s.hooks, step.skb);
      } else if step.StartWorker? {
        WorkKeepsPackets(s.queue, s.work, t.work, s.hooks);
      }
    }
  }

  lemma ArriveKeepsPackets(queue: seq<nat>, w: Work, h: Hooks, skb: nat)
    requires PacketInv(queue, w, h) && skb !in h.pcs
    ensures PacketInv(queue, w, h.(pcs := h.pcs[skb := ReadLive], running := h.running + {skb}))
  {
  }

  lemma RefsKept(cpus: nat, s: State, step: Step)
    requires RefInv(s.work) && Enabled(cpus, s, step)
    ensures RefInv(Apply(cpus, s, step).work)
  {
    hide Perform, EffectOf, Fits;
    if step.WorkerStep? && !s.work.at.Dequeue? {
      EffectFits(s, step.answer);
      PerformKeepsRefs(s.work, EffectOf(s, s.work.at, s.work.nextRef, step.answer));
    } else {
      forall r: nat ensures Counted(Apply(cpus, s, step).work, r) == Counted(s.work, r) {
      }
    }
  }

  lemma HookKeepsLength(cpus: nat, h: Hooks, len: nat, skb: nat, pc: HookPc)
    requires LengthInv(cpus, h, len) && skb in h.pcs && !Finished(h.pcs[skb])
    requires pc.Enqueue? ==> len < QMAX
    requires pc.Schedule? <==> h.pcs[skb].Enqueue?
    ensures LengthInv(cpus, HookMoves(h, skb, pc), if pc.Schedule? then len + 1 else len)
  {
    var t := HookMoves(h, skb, pc);
    SubsetSize(t.passed, t.running);
    assert |t.running| <= |h.running|;
  }

  lemma LengthKept(cpus: nat, s: State, step: Step)
    requires LengthInv(cpus, s.hooks, |s.queue|) && Enabled(cpus, s, step)
    ensures LengthInv(cpus, Apply(cpus, s, step).hooks, |Apply(cpus, s, step).queue|)
  {
    hide Perform, EffectOf, Fits, HookMoves;
    if step.HookStep? {
      HookKeepsLength(cpus, s.hooks, |s.queue|, step.skb, HookNext(s, s.hooks.pcs[step.skb], step.yes));
    }
  }

  lemma InvKept(cpus: nat, s: State, step: Step)
    requires Inv(cpus, s) && Enabled(cpus, s, step)
    ensures Inv(cpus, Apply(cpus, s, step))
  {
    hide Apply, Enabled, PacketInv, RefInv, LengthInv;
    PacketsKept(cpus, s, step);
    RefsKept(cpus, s, step);
    LengthKept(cpus, s, step);
  }

  // --------------------------------------------------------------------- runs

  /** The state a run ends in, if each of its steps was enabled. */
  function After(cpus: nat, steps: seq<Step>): Option<State> {
    if steps == [] then Some(INITIAL)
    else
      var before := After(cpus, steps[..|steps| - 1]);
      var last := steps[|steps| - 1];
      if before.Some? && Enabled(cpus, before.value, last) then Some(Apply(cpus, before.value, last)) else None
  }

  lemma {:induction false} RunInv(cpus: nat, steps: seq<Step>)
    requires After(cpus, steps).Some?
    ensures Inv(cpus, After(cpus, steps).value)
  {
    hide Apply, Enabled;
    if steps != [] {
      RunInv(cpus, steps[..|steps| - 1]);
      hide Inv;
      InvKept(cpus, After(cpus, steps[..|steps| - 1]).value, steps[|steps| - 1]);
    }
  }

  /** In every run a packet answered NF_STOLEN is in exactly one place: queued, in
      the worker, freed once or delivered once; a packet answered NF_ACCEPT is
      never touched. */
  lemma StolenConserved(cpus: nat, steps: seq<Step>, skb: nat)
    requires After(cpus, steps).Some?
    ensures var s := After(cpus, steps).value;
            skb in s.hooks.pcs && s.hooks.pcs[skb].Stolen? ==>
              multiset(s.queue)[skb] + Times(SkbOf(s.work.at), skb) + s.work.freed[skb] + s.work.delivered[skb] == 1
    ensures var s := After(cpus, steps).value;
            skb in s.hooks.pcs && s.hooks.pcs[skb].Accepted? ==>
              skb !in s.queue && SkbOf(s.work.at) != Some(skb) && s.work.freed[skb] == s.work.delivered[skb] == 0
  {
    RunInv(cpus, steps);
    hide After;
    var s := After(cpus, steps).value;
    assert Handled(s.work, skb) == Times(SkbOf(s.work.at), skb) + s.work.freed[skb] + s.work.delivered[skb];
    assert skb in s.queue <==> multiset(s.queue)[skb] > 0;
  }

  /** Someone is bound to look at the queue again. */
  ghost predicate Watched(s: State) {
    || s.pending || !s.work.at.Idle? || !s.closer.Away?
    || exists p :: p in s.hooks.pcs && s.hooks.pcs[p].Schedule?
  }

  lemma WatchKept(cpus: nat, s: State, step: Step)
    requires Enabled(cpus, s, step) && (s.queue != [] ==> Watched(s))
    ensures var t := Apply(cpus, s, step); t.queue != [] ==> Watched(t)
  {
    hide Perform, EffectOf;
    var t := Apply(cpus, s, step);
    if step.WorkerStep? && !s.work.at.Dequeue? {
      PerformGoesOn(s, step.answer);
    } else if step.HookStep? && t.hooks.pcs[step.skb].Schedule? {
      assert Watched(t);
    } else if s.queue != [] && exists p :: p in s.hooks.pcs && s.hooks.pcs[p].Schedule? {
      var p :| p in s.hooks.pcs && s.hooks.pcs[p].Schedule?;
      assert p in t.hooks.pcs && (t.hooks.pcs[p].Schedule? || t.pending);
    }
  }

  lemma PerformGoesOn(s: State, a: Answer)
    requires !s.work.at.Idle? && !s.work.at.Dequeue?
    ensures !Perform(s.work, EffectOf(s, s.work.at, s.work.nextRef, a)).at.Idle?
  {
  }

  /** No lost wake-up: in every run a queue that is not empty has the work item pending or
      running, a purge under way, or a hook about to schedule the work. */
  lemma {:induction false} NoLostWakeup(cpus: nat, steps: seq<Step>)
    requires After(cpus, steps).Some?
    ensures After(cpus, steps).value.queue != [] ==> Watched(After(cpus, steps).value)
  {
    hide Apply, Enabled, Watched;
    if steps != [] {
      NoLostWakeup(cpus, steps[..|steps| - 1]);
      WatchKept(cpus, After(cpus, steps[..|steps| - 1]).value, steps[|steps| - 1]);
    }
  }

  /** So once everything is at rest, every stolen packet has been freed or delivered,
      exactly once. */
  lemma StolenPacketsEnd(cpus: nat, steps: seq<Step>, skb: nat)
    requires After(cpus, steps).Some? && !Watched(After(cpus, steps).value)
    ensures var s := After(cpus, steps).value;
            skb in s.hooks.pcs && s.hooks.pcs[skb].Stolen? ==> s.work.freed[skb] + s.work.delivered[skb] == 1
  {
    NoLostWakeup(cpus, steps);
    StolenConserved(cpus, steps, skb);
    hide After;
    assert multiset(After(cpus, steps).value.queue)[skb] == 0;
  }

  /** Every reference a lookup returned is put or assigned exactly once, and none is
      left over when the worker stops. The counter of stolen packets is the number
      of assignments. */
  lemma ReferencesReleasedOnce(cpus: nat, steps: seq<Step>, sk: nat)
    requires After(cpus, steps).Some?
    ensures var s := After(cpus, steps).value;
            s.work.put[sk] + s.work.owned[sk] <= 1 && (sk >= s.work.nextRef ==> s.work.put[sk] + s.work.owned[sk] == 0)
    ensures var s := After(cpus, steps).value;
            (s.work.at.Idle? || s.work.at.Dequeue?) && sk < s.work.nextRef ==> s.work.put[sk] + s.work.owned[sk] == 1
    ensures var s := After(cpus, steps).value;
            s.work.stolenCount == |s.work.owned| && (s.work.at.Idle? ==> s.work.stolenCount == |s.work.delivered|)
  {
    RunInv(cpus, steps);
    hide After;
    var s := After(cpus, steps).value;
    assert Counted(s.work, sk) == Times(RefOf(s.work.at), sk) + s.work.put[sk] + s.work.owned[sk];
  }

  /** The unlocked length check lets the queue overshoot its limit by at most one
      packet per other concurrent hook. */
  lemma QueueBounded(cpus: nat, steps: seq<Step>)
    requires After(cpus, steps).Some? && cpus > 0
    ensures |After(cpus, steps).value.queue| <= QMAX + cpus - 1
  {
    RunInv(cpus, steps);
  }

  lemma Extend(cpus: nat, steps: seq<Step>, step: Step)
    requires After(cpus, steps).Some? && Enabled(cpus, After(cpus, steps).value, step)
    ensures After(cpus, steps + [step]) == Some(Apply(cpus, After(cpus, steps).value, step))
  {
    assert (steps + [step])[..|steps|] == steps;
  }

  /** A hook starts, passes every test and stops just before it enqueues. */
  lemma PassOne(cpus: nat, steps: seq<Step>, skb: nat) returns (more: seq<Step>)
    requires After(cpus, steps).Some?
    requires var s := After(cpus, steps).value;
             s.live && s.listenersSet && skb !in s.hooks.pcs && |s.hooks.running| < cpus && |s.queue| < QMAX
    ensures After(cpus, more).Some?
    ensures var s, t := After(cpus, steps).value, After(cpus, more).value;
            && t.live && t.listenersSet && t.queue == s.queue
            && t.hooks.pcs == s.hooks.pcs[skb := Enqueue] && t.hooks.running == s.hooks.running + {skb}
  {
    var s := After(cpus, steps).value;
    hide After;
    Extend(cpus, steps, Arrive(skb));
    more := steps + [Arrive(skb)];
    for i := 0 to 4
      invariant After(cpus, more).Some?
      invariant var t := After(cpus, more).value;
                && t.live && t.listenersSet && t.queue == s.queue && t.hooks.running == s.hooks.running + {skb}
                && t.hooks.pcs == s.hooks.pcs[skb := [ReadLive, Classify, ReadListeners, CheckLength, Enqueue][i]]
    {
      Extend(cpus, more, HookStep(skb, true));
      more := more + [HookStep(skb, true)];
    }
  }

  /** A hook that passed the check enqueues and returns. */
  lemma HandOne(cpus: nat, steps: seq<Step>, skb: nat) returns (more: seq<Step>)
    requires After(cpus, steps).Some?
    requires var s := After(cpus, steps).value;
             s.live && s.listenersSet && skb in s.hooks.pcs && s.hooks.pcs[skb].Enqueue?
    ensures After(cpus, more).Some?
    ensures var s, t := After(cpus, steps).value, After(cpus, more).value;
            && t.live && t.listenersSet && t.queue == s.queue + [skb]
            && t.hooks.pcs == s.hooks.pcs[skb := Stolen] && t.hooks.running == s.hooks.running - {skb}
  {
    hide After;
    Extend(cpus, steps, HookStep(skb, true));
    more := steps + [HookStep(skb, true)];
    Extend(cpus, more, HookStep(skb, true));
    more := more + [HookStep(skb, true)];
  }

  /** The bound is exact: with the queue one short of its limit, every hook passes
      the check before any of them enqueues. */
  lemma BoundIsReached(cpus: nat)
    requires cpus > 0
    ensures exists steps :: After(cpus, steps).Some? && |After(cpus, steps).value.queue| == QMAX + cpus - 1
  {
    hide Apply, Enabled;
    var steps := StartUp(cpus);
    hide After;
    for k := 0 to QMAX - 1
      invariant After(cpus, steps).Some?
      invariant var s := After(cpus, steps).value;
                && s.live && s.listenersSet && |s.queue| == k && s.hooks.running == {}
                && forall i :: i in s.hooks.pcs <==> 0 <= i < k
    {
      steps := PassOne(cpus, steps, k);
      steps := HandOne(cpus, steps, k);
    }
    var base := QMAX - 1;
    for j := 0 to cpus
      invariant After(cpus, steps).Some?
      invariant var s := After(cpus, steps).value;
                && s.live && s.listenersSet && |s.queue| == base && |s.hooks.running| == j
                && (forall i :: i in s.hooks.pcs <==> 0 <= i < base + j)
                && (forall i :: base <= i < base + j ==> s.hooks.pcs[i].Enqueue?)
                && (forall i :: i in s.hooks.running <==> base <= i < base + j)
    {
      steps := PassOne(cpus, steps, base + j);
    }
    for j := 0 to cpus
      invariant After(cpus, steps).Some?
      invariant var s := After(cpus, steps).value;
                && s.live && s.listenersSet && |s.queue| == base + j
                && (forall i :: base + j <= i < base + cpus ==> i in s.hooks.pcs && s.hooks.pcs[i].Enqueue?)
    {
      steps := HandOne(cpus, steps, base + j);
    }
  }

  lemma StartUp(cpus: nat) returns (steps: seq<Step>)
    ensures After(cpus, steps).Some?
    ensures After(cpus, steps).value == INITIAL.(live := true, listenersSet := true)
  {
    Extend(cpus, [], Open);
    Extend(cpus, [Open], SetListeners(true));
    steps := [Open] + [SetListeners(true)];
    assert [] + [Open] == [Open];
  }
}
