/** Why an invocation of cap_core decides what it decides: for every stored decision and
    every action of a run, the facts that force it, and none that speaks against it. */
module CaptureOutcomes {
  import opened Wrappers
  import opened PolicyEpochs
  import opened CaptureProtocol

  predicate BareSyn(k: Kind) {
    k.Tcp? && k.syn && !k.ack
  }

  /** The epoch that the invocation read lets its flow go direct. */
  predicate Bypassed(v: Invocation)
    requires v.epoch.Some?
  {
    ObserveNewFlow(v.epoch.value, v.packet.uid, v.packet.dest) == Direct
  }

  predicate Deciding(pc: Pc) {
    pc.Create? || pc.Insert?
  }

  /** Packets of a supported layout, of a full socket with a UID of its own, are examined. */
  predicate Examined(p: Packet) {
    p.e0 && p.fullSock && p.uid != 65534
  }

  /** Which packets get how far. */
  predicate KindInv(v: Invocation) {
    match v.pc
    case SelfLookup(_, _) => v.packet.kind.Fragment? || v.packet.kind.Udp? || BareSyn(v.packet.kind)
    case TrieLookup(_, _) => v.packet.kind.Fragment? || v.packet.kind.Udp? || BareSyn(v.packet.kind)
    case Listener(_) => v.packet.kind.Udp? || BareSyn(v.packet.kind)
    case Create(_, _) => BareSyn(v.packet.kind)
    case Insert(_, _) => BareSyn(v.packet.kind)
    case Reread(_) => BareSyn(v.packet.kind)
    case _ => true
  }

  lemma KindKept(s: State, v: Invocation, o: Oracle)
    requires KindInv(v) && !v.pc.Done?
    ensures KindInv(v.(pc := AdvancePc(s, v, o), epoch := Some(Live(s)))) && KindInv(v.(pc := AdvancePc(s, v, o)))
  {
    hide SelfHit, TagOf, TagDirect, ModeIn;
  }

  lemma StepKeepsKind(uidOf: nat -> nat, s: State, step: Step, id: nat)
    requires Enabled(uidOf, s, step) && id in Apply(uidOf, s, step).invs
    requires id in s.invs ==> KindInv(s.invs[id])
    ensures KindInv(Apply(uidOf, s, step).invs[id])
  {
    if step.Advance? && step.id == id {
      KindKept(s, s.invs[id], step.oracle);
    }
    hide AdvancePc;
  }

  lemma {:induction false} RunKind(uidOf: nat -> nat, states: seq<State>, steps: seq<Step>, i: nat, id: nat)
    requires Run(uidOf, states, steps) && i < |states| && id in states[i].invs
    ensures KindInv(states[i].invs[id])
  {
    assert i > 0;
    assert states[i] == Apply(uidOf, states[i - 1], steps[i - 1]);
    hide Apply, Enabled, KindInv;
    if id in states[i - 1].invs {
      RunKind(uidOf, states, steps, i - 1, id);
    }
    StepKeepsKind(uidOf, states[i - 1], steps[i - 1], id);
  }

  // -------------------------------------------------------- stored decisions

  /** Step l of the run is the listener lookup of invocation id, with this answer. */
  ghost predicate ListenerSaid(states: seq<State>, steps: seq<Step>, l: nat, id: nat, alive: bool)
    requires l < |steps| <= |states|
  {
    match steps[l]
    case Advance(i, o) => i == id && id in states[l].invs && states[l].invs[id].pc.Listener? && o.listener == alive
    case _ => false
  }

  /** Before step i some listener lookup of the invocation gave this answer. */
  ghost predicate Listened(states: seq<State>, steps: seq<Step>, i: nat, id: nat, alive: bool)
    requires i <= |steps| <= |states|
  {
    exists l: nat :: l < i && ListenerSaid(states, steps, l, id, alive)
  }

  lemma CandidateMade(s: State, v: Invocation, o: Oracle)
    requires PcInv(s, v) && KindInv(v) && !v.pc.Done? && !v.pc.ReadControl? && Deciding(AdvancePc(s, v, o))
    ensures v.epoch.Some?
    ensures var pc := AdvancePc(s, v, o);
            if v.pc.Create? then pc == Insert(v.pc.leaf, v.pc.cand)
            else if v.pc.Listener? then pc == Create(v.pc.leaf, if o.listener then CapturedUnder(v.pc.leaf) else DIRECT)
            else pc == Create(v.pc.leaf, DIRECT) && (!v.pc.leaf.active || Bypassed(v))
  {
    hide Lpm, LongestFrom, TagDirect;
  }

  /** A candidate comes from the listener lookup, or from a flow that the epoch read does
      not capture, or from capture being off. */
  lemma CandidateStep(uidOf: nat -> nat, s: State, step: Step, id: nat)
    requires Inv(uidOf, s) && Enabled(uidOf, s, step) && (id in s.invs ==> KindInv(s.invs[id]))
    requires id in Apply(uidOf, s, step).invs && Deciding(Apply(uidOf, s, step).invs[id].pc)
    ensures id in s.invs && Apply(uidOf, s, step).invs[id].epoch.Some?
    ensures var v, w := s.invs[id], Apply(uidOf, s, step).invs[id];
            if Deciding(v.pc)
            then w.packet == v.packet && w.epoch == v.epoch && w.pc.leaf == v.pc.leaf && w.pc.cand == v.pc.cand
            else
              && step.Advance? && step.id == id
              && if v.pc.Listener? then w.pc.cand == if step.oracle.listener then CapturedUnder(w.pc.leaf) else DIRECT
                 else w.pc.cand == DIRECT && (!w.pc.leaf.active || Bypassed(w))
  {
    if id in s.invs {
      assert InvocationInv(uidOf, s, s.invs[id]);
      if step.Advance? && step.id == id && !s.invs[id].pc.ReadControl? {
        CandidateMade(s, s.invs[id], step.oracle);
      }
    }
    hide AdvancePc, ObserveNewFlow, Inv, InvocationInv;
  }

  /** What speaks for a candidate. */
  ghost predicate Argued(states: seq<State>, steps: seq<Step>, i: nat, id: nat, v: Invocation)
    requires i <= |steps| <= |states| && Deciding(v.pc) && v.epoch.Some?
  {
    if v.pc.cand.mode == Captured then Listened(states, steps, i, id, true)
    else !v.pc.leaf.active || Bypassed(v) || Listened(states, steps, i, id, false)
  }

  /** It goes on speaking for it. */
  lemma ArguedLater(states: seq<State>, steps: seq<Step>, i: nat, id: nat, v: Invocation, w: Invocation)
    requires i < |steps| <= |states| && Deciding(v.pc) && v.epoch.Some? && Argued(states, steps, i, id, v)
    requires Deciding(w.pc) && w.packet == v.packet && w.epoch == v.epoch
    requires w.pc.leaf == v.pc.leaf && w.pc.cand == v.pc.cand
    ensures Argued(states, steps, i + 1, id, w)
  {
    hide ListenerSaid, ObserveNewFlow;
  }

  lemma ArguedNow(states: seq<State>, steps: seq<Step>, i: nat, id: nat, w: Invocation)
    requires i < |steps| <= |states| && Deciding(w.pc) && w.epoch.Some? && steps[i].Advance? && steps[i].id == id
    requires id in states[i].invs
    requires if states[i].invs[id].pc.Listener?
             then w.pc.cand == if steps[i].oracle.listener then CapturedUnder(w.pc.leaf) else DIRECT
             else w.pc.cand == DIRECT && (!w.pc.leaf.active || Bypassed(w))
    ensures Argued(states, steps, i + 1, id, w)
  {
    hide Bypassed;
    if states[i].invs[id].pc.Listener? {
      assert ListenerSaid(states, steps, i, id, steps[i].oracle.listener);
    }
  }

  lemma {:induction false} CandidateArgued(uidOf: nat -> nat, states: seq<State>, steps: seq<Step>, i: nat, id: nat)
    requires Run(uidOf, states, steps) && i < |states| && id in states[i].invs && Deciding(states[i].invs[id].pc)
    ensures states[i].invs[id].epoch.Some? && Argued(states, steps, i, id, states[i].invs[id])
  {
    assert i > 0 && states[i] == Apply(uidOf, states[i - 1], steps[i - 1]);
    RunInv(uidOf, states, steps, i - 1);
    hide Apply, Enabled, Inv, KindInv, Bypassed, Argued;
    if id in states[i - 1].invs {
      RunKind(uidOf, states, steps, i - 1, id);
    }
    CandidateStep(uidOf, states[i - 1], steps[i - 1], id);
    if Deciding(states[i - 1].invs[id].pc) {
      CandidateArgued(uidOf, states, steps, i - 1, id);
      ArguedLater(states, steps, i - 1, id, states[i - 1].invs[id], states[i].invs[id]);
    } else {
      ArguedNow(states, steps, i - 1, id, states[i].invs[id]);
    }
  }

  lemma PcFalls(uidOf: nat -> nat, s: State, step: Step, id: nat)
    requires Enabled(uidOf, s, step) && id in s.invs
    ensures id in Apply(uidOf, s, step).invs
    ensures var before, after := Remaining(s.invs[id].pc), Remaining(Apply(uidOf, s, step).invs[id].pc);
            after <= before && (step.Advance? && step.id == id ==> after < before)
  {
    if step.Advance? && step.id == id {
      AdvanceMakesProgress(s, s.invs[id], step.oracle);
    }
    hide AdvancePc;
  }

  lemma {:induction false} NeverBack(uidOf: nat -> nat, states: seq<State>, steps: seq<Step>, i: nat, j: nat, id: nat)
    requires Run(uidOf, states, steps) && i < j < |states| && id in states[i].invs
    ensures id in states[j].invs
    ensures var before, after := Remaining(states[i].invs[id].pc), Remaining(states[j].invs[id].pc);
            after <= before && (steps[i].Advance? && steps[i].id == id ==> after < before)
    decreases j
  {
    hide Apply, Enabled, Remaining;
    if i < j - 1 {
      NeverBack(uidOf, states, steps, i, j - 1, id);
    }
    PcFalls(uidOf, states[j - 1], steps[j - 1], id);
  }

  /** An invocation asks for the listener once. */
  lemma ListensOnce(uidOf: nat -> nat, states: seq<State>, steps: seq<Step>, i: nat, id: nat)
    requires Run(uidOf, states, steps) && i < |states|
    ensures !(Listened(states, steps, i, id, true) && Listened(states, steps, i, id, false))
  {
    assert |states| == |steps| + 1;
    hide Run;
    if Listened(states, steps, i, id, true) && Listened(states, steps, i, id, false) {
      var l: nat :| l < i && ListenerSaid(states, steps, l, id, true);
      var m: nat :| m < i && ListenerSaid(states, steps, m, id, false);
      if l < m {
        NeverBack(uidOf, states, steps, l, m, id);
      } else {
        NeverBack(uidOf, states, steps, m, l, id);
      }
    }
  }

  /** Step k stores decision d of sock for an invocation that read the control leaf in
      step j, and d is CAPTURED exactly if capture was on, the epoch live then captures
      the flow, and the listener lookup found one. */
  ghost predicate DecidedRightly(states: seq<State>, steps: seq<Step>, j: nat, k: nat, sock: nat, d: Decision)
    requires j < k < |steps| <= |states|
  {
    && InsertsAt(states, steps, k, sock, d) && ReadsControl(states, steps, j, steps[k].id)
    && var v := states[k].invs[steps[k].id];
       && (d == DIRECT || d == CapturedUnder(states[j].control))
       && (d.mode == Captured <==>
             && states[j].control.active
             && ObserveNewFlow(Live(states[j]), v.packet.uid, v.packet.dest) == Captured
             && Listened(states, steps, k, steps[k].id, true))
       && (d.mode == Direct <==>
             || !states[j].control.active
             || ObserveNewFlow(Live(states[j]), v.packet.uid, v.packet.dest) == Direct
             || Listened(states, steps, k, steps[k].id, false))
  }

  /** Every stored decision of every run was decided rightly. */
  lemma StoredDecidedRightly(uidOf: nat -> nat, states: seq<State>, steps: seq<Step>, i: nat, sock: nat)
    requires Run(uidOf, states, steps) && i < |states| && sock in states[i].storage
    ensures exists j: nat, k: nat ::
              j < k < i && DecidedRightly(states, steps, j, k, sock, states[i].storage[sock])
  {
    StoredWasInserted(uidOf, states, steps, i, sock);
    hide Apply, Enabled, ObserveNewFlow, Live;
    var k: nat :| k < i && InsertsAt(states, steps, k, sock, states[i].storage[sock]);
    var id := steps[k].id;
    CandidateArgued(uidOf, states, steps, k, id);
    HeldLeafWasLive(uidOf, states, steps, k, id);
    var j: nat :| && j < k && ReadsControl(states, steps, j, id)
                  && states[k].invs[id].pc.leaf == states[j].control && states[k].invs[id].epoch == Some(Live(states[j]));
    ListensOnce(uidOf, states, steps, k, id);
    RunInv(uidOf, states, steps, k);
    hide Run, Listened;
    assert InvocationInv(uidOf, states[k], states[k].invs[id]);
    assert DecidedRightly(states, steps, j, k, sock, states[i].storage[sock]);
  }

  // ------------------------------------------------------------------ actions

  /** Why a packet is left to the stack: its UID is unknown, its socket is DIRECT, it
      could not be read or needs no decision, its decision could not be stored; or, for
      what is decided packet by packet, the flow is bypassed, capture is off, or there is
      no listener. */
  ghost predicate UnspecReason(t: State, v: Invocation, o: Oracle)
    requires v.epoch.Some? && !v.pc.ReadControl? && !v.pc.Done?
  {
    var p := v.packet;
    || p.uid !in Known(v.epoch.value)
    || (p.sock in t.storage && t.storage[p.sock].mode == Direct)
    || (v.pc.Headers? && !o.pulled)
    || p.kind.Malformed? || (p.kind.Tcp? && !BareSyn(p.kind))
    || (BareSyn(p.kind) && v.pc.Reread? && p.sock !in t.storage)
    || (!p.kind.Tcp? && (!v.pc.leaf.active || Bypassed(v)))
    || (p.kind.Udp? && v.pc.Listener? && !o.listener)
  }

  /** Why it is dropped: its socket is captured and cannot be handed off now, or it is a
      fragment of a captured flow, or the hand-over of a datagram failed. */
  ghost predicate ShotReason(t: State, v: Invocation, o: Oracle)
    requires v.epoch.Some? && !v.pc.ReadControl? && !v.pc.Done?
  {
    var p, leaf := v.packet, v.pc.leaf;
    || (CapturedIn(t, p.sock)
        && (!leaf.active || t.storage[p.sock].generation != leaf.generation || !o.handedOff))
    || (p.kind.Fragment? && leaf.active && !Bypassed(v))
    || (p.kind.Udp? && v.pc.Listener? && leaf.active && !Bypassed(v) && o.listener && !o.handedOff)
  }

  /** Why it is redirected: capture is on, the hand-over worked, and its socket is captured
      in this generation or it is a captured datagram with a listener. */
  ghost predicate RedirectReason(t: State, v: Invocation, o: Oracle)
    requires v.epoch.Some? && !v.pc.ReadControl? && !v.pc.Done?
  {
    var p, leaf := v.packet, v.pc.leaf;
    && leaf.active && o.handedOff
    && (|| (CapturedIn(t, p.sock) && t.storage[p.sock].generation == leaf.generation)
        || (p.kind.Udp? && v.pc.Listener? && o.listener && !Bypassed(v)))
  }

  ghost predicate Reason(action: Action, t: State, v: Invocation, o: Oracle)
    requires v.epoch.Some? && !v.pc.ReadControl? && !v.pc.Done?
  {
    match action
    case Unspec => UnspecReason(t, v, o)
    case Shot => ShotReason(t, v, o)
    case Redirect => RedirectReason(t, v, o)
  }

  lemma EndStep(uidOf: nat -> nat, s: State, step: Step)
    requires Inv(uidOf, s) && Enabled(uidOf, s, step) && step.Advance? && KindInv(s.invs[step.id])
    requires Apply(uidOf, s, step).invs[step.id].pc.Done?
    ensures s.invs[step.id].epoch.Some? && !s.invs[step.id].pc.ReadControl? && !s.invs[step.id].pc.Done?
    ensures Reason(Apply(uidOf, s, step).invs[step.id].pc.action, Apply(uidOf, s, step), s.invs[step.id], step.oracle)
  {
    hide Lpm, LongestFrom, TagDirect;
    var v := s.invs[step.id];
    assert InvocationInv(uidOf, s, v);
    if v.packet.sock in s.storage {
      assert s.storage[v.packet.sock].sound;
    }
  }

  /** Step l ends invocation id. */
  ghost predicate EndsAt(states: seq<State>, steps: seq<Step>, l: nat, id: nat)
    requires l < |steps| && |states| == |steps| + 1
  {
    match steps[l]
    case Advance(i, _) =>
      && i == id && id in states[l].invs && !states[l].invs[id].pc.Done?
      && id in states[l + 1].invs && states[l + 1].invs[id].pc.Done?
    case _ => false
  }

  lemma DoneByStep(uidOf: nat -> nat, s: State, step: Step, id: nat)
    requires Enabled(uidOf, s, step) && id in Apply(uidOf, s, step).invs
    requires var w := Apply(uidOf, s, step).invs[id]; w.pc.Done? && Examined(w.packet)
    ensures id in s.invs
    ensures s.invs[id].pc.Done? ==> s.invs[id] == Apply(uidOf, s, step).invs[id]
    ensures !s.invs[id].pc.Done? ==> step.Advance? && step.id == id
  {
    hide AdvancePc;
  }

  lemma {:induction false} DoneHasEnded(uidOf: nat -> nat, states: seq<State>, steps: seq<Step>, i: nat, id: nat)
    requires Run(uidOf, states, steps) && i < |states| && id in states[i].invs
    requires states[i].invs[id].pc.Done? && Examined(states[i].invs[id].packet)
    ensures exists l: nat :: l < i && EndsAt(states, steps, l, id) && states[l + 1].invs[id] == states[i].invs[id]
  {
    assert i > 0;
    assert states[i] == Apply(uidOf, states[i - 1], steps[i - 1]);
    DoneByStep(uidOf, states[i - 1], steps[i - 1], id);
    hide Apply, Enabled;
    if states[i - 1].invs[id].pc.Done? {
      DoneHasEnded(uidOf, states, steps, i - 1, id);
    } else {
      assert EndsAt(states, steps, i - 1, id);
    }
  }

  /** Before step i the storage refused the invocation's decision. */
  ghost predicate Refused(states: seq<State>, steps: seq<Step>, i: nat, id: nat)
    requires i <= |steps| <= |states|
  {
    exists l: nat :: l < i && steps[l].Advance? && RefusedAt(states, steps, l, id)
  }

  ghost predicate RefusedAt(states: seq<State>, steps: seq<Step>, l: nat, id: nat)
    requires l < |steps| <= |states|
  {
    match steps[l]
    case Advance(i, o) => i == id && id in states[l].invs && states[l].invs[id].pc.Insert? && !o.stored
    case _ => false
  }

  lemma RereadStep(uidOf: nat -> nat, s: State, step: Step, id: nat)
    requires Enabled(uidOf, s, step) && id in Apply(uidOf, s, step).invs
    requires var t := Apply(uidOf, s, step); t.invs[id].pc.Reread? && t.invs[id].packet.sock !in t.storage
    ensures id in s.invs && s.invs[id].packet.sock !in s.storage
    ensures s.invs[id].pc.Reread? || (step.Advance? && step.id == id && s.invs[id].pc.Insert? && !step.oracle.stored)
  {
    hide SelfHit, TagOf, TagDirect, ModeIn;
  }

  lemma {:induction false} RereadWasRefused(uidOf: nat -> nat, states: seq<State>, steps: seq<Step>, i: nat, id: nat)
    requires Run(uidOf, states, steps) && i < |states| && id in states[i].invs
    requires states[i].invs[id].pc.Reread? && states[i].invs[id].packet.sock !in states[i].storage
    ensures Refused(states, steps, i, id)
  {
    assert i > 0;
    assert states[i] == Apply(uidOf, states[i - 1], steps[i - 1]);
    RereadStep(uidOf, states[i - 1], steps[i - 1], id);
    hide Apply, Enabled;
    if states[i - 1].invs[id].pc.Reread? {
      RereadWasRefused(uidOf, states, steps, i - 1, id);
    } else {
      assert RefusedAt(states, steps, i - 1, id);
    }
  }

  /** Step l ends invocation id for a reason, under the leaf and the epoch that were live
      when it read the control leaf in step j. */
  ghost predicate EndsRightly(states: seq<State>, steps: seq<Step>, j: nat, l: nat, id: nat)
    requires j < l < |steps| && |states| == |steps| + 1
  {
    && EndsAt(states, steps, l, id) && ReadsControl(states, steps, j, id)
    && var v := states[l].invs[id];
       && !v.pc.ReadControl? && v.epoch == Some(Live(states[j])) && v.pc.leaf == states[j].control
       && Reason(states[l + 1].invs[id].pc.action, states[l + 1], v, steps[l].oracle)
       && (v.pc.Reread? && v.packet.sock !in states[l].storage ==> Refused(states, steps, l, id))
  }

  lemma UnexaminedStep(uidOf: nat -> nat, s: State, step: Step, id: nat)
    requires Enabled(uidOf, s, step) && id in Apply(uidOf, s, step).invs
    requires !Examined(Apply(uidOf, s, step).invs[id].packet)
    ensures id in s.invs ==> s.invs[id].packet == Apply(uidOf, s, step).invs[id].packet
    ensures (id in s.invs ==> s.invs[id].pc == Done(Unspec)) ==> Apply(uidOf, s, step).invs[id].pc == Done(Unspec)
  {
    hide AdvancePc;
  }

  /** What is not examined is left to the stack at once. */
  lemma {:induction false} UnexaminedIsLeft(uidOf: nat -> nat, states: seq<State>, steps: seq<Step>, i: nat, id: nat)
    requires Run(uidOf, states, steps) && i < |states| && id in states[i].invs && !Examined(states[i].invs[id].packet)
    ensures states[i].invs[id].pc == Done(Unspec)
  {
    assert i > 0;
    assert states[i] == Apply(uidOf, states[i - 1], steps[i - 1]);
    hide Apply, Enabled;
    UnexaminedStep(uidOf, states[i - 1], steps[i - 1], id);
    if id in states[i - 1].invs {
      UnexaminedIsLeft(uidOf, states, steps, i - 1, id);
    }
  }

  /** Every action of every run has its reason. */
  lemma ActionHasReason(uidOf: nat -> nat, states: seq<State>, steps: seq<Step>, i: nat, id: nat)
    requires Run(uidOf, states, steps) && i < |states| && id in states[i].invs
    requires states[i].invs[id].pc.Done? && Examined(states[i].invs[id].packet)
    ensures exists j: nat, l: nat ::
              j < l < i && EndsRightly(states, steps, j, l, id) && states[l + 1].invs[id] == states[i].invs[id]
  {
    DoneHasEnded(uidOf, states, steps, i, id);
    var l: nat :| l < i && EndsAt(states, steps, l, id) && states[l + 1].invs[id] == states[i].invs[id];
    RunInv(uidOf, states, steps, l);
    RunKind(uidOf, states, steps, l, id);
    assert Enabled(uidOf, states[l], steps[l]) && states[l + 1] == Apply(uidOf, states[l], steps[l]);
    hide Apply, Enabled, Inv, KindInv, Reason, Live;
    EndStep(uidOf, states[l], steps[l]);
    HeldLeafWasLive(uidOf, states, steps, l, id);
    var j: nat :| && j < l && ReadsControl(states, steps, j, id)
                  && states[l].invs[id].pc.leaf == states[j].control && states[l].invs[id].epoch == Some(Live(states[j]));
    if states[l].invs[id].pc.Reread? && states[l].invs[id].packet.sock !in states[l].storage {
      RereadWasRefused(uidOf, states, steps, l, id);
    }
    assert EndsRightly(states, steps, j, l, id);
  }

  /** The daemon's steps: rewriting the idle bank shows nothing, a policy commit puts the
      committed epoch in force at once, and a switch changes activity and generation. */
  lemma DaemonSteps(uidOf: nat -> nat, s: State, step: Step)
    requires Enabled(uidOf, s, step)
    ensures var t := Apply(uidOf, s, step); var leaf := t.control;
            match step
            case WriteBank(b, content) => Live(t) == Live(s) && leaf == s.control && Bank(t, b) == content
            case CommitPolicy(desired) =>
              && Live(t) == Committed(Live(s), desired)
              && leaf.active == s.control.active && leaf.generation == s.control.generation
            case SwitchControl(active, generation) =>
              Live(t) == Live(s) && leaf.active == active && leaf.generation == generation
            case _ => Live(t) == Live(s) && leaf == s.control
  {
    hide AdvancePc;
  }
}
