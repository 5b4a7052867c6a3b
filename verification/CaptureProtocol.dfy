/** cap_core as a protocol. Any number of invocations run interleaved, one shared
    access at a time, over socket storage, the control leaf and the two policy
    banks, while the daemon rewrites the idle bank and publishes leaves. Helper
    outcomes (header pull, listener lookup, allocation, handoff) are arbitrary. */
module CaptureProtocol {
  import opened Wrappers
  import opened PolicyEpochs

  const OVERFLOW_UID: nat := 65534

  datatype UidMode = Selected | Draining

  datatype Leaf = Leaf(active: bool, generation: nat, cidrMode: CidrMode, bank: bool)

  /** struct flux_decision; `sound` stands for the magic and the zero padding. */
  datatype Decision = Decision(sound: bool, mode: DecisionMode, generation: nat)

  datatype Kind = Malformed | Fragment | Tcp(syn: bool, ack: bool) | Udp

  datatype Packet = Packet(sock: nat, uid: nat, e0: bool, fullSock: bool, kind: Kind, dest: Dest)

  datatype Action = Unspec | Shot | Redirect

  /** The next shared access of an invocation, with what it has read so far. */
  datatype Pc =
    | ReadControl
    | ReadMode(leaf: Leaf)
    | ReadDecision(leaf: Leaf, mode: UidMode)
    | Headers(leaf: Leaf, mode: UidMode)
    | SelfLookup(leaf: Leaf, mode: UidMode)
    | TrieLookup(leaf: Leaf, mode: UidMode)
    | Listener(leaf: Leaf)
    | Create(leaf: Leaf, cand: Decision)
    | Insert(leaf: Leaf, cand: Decision)
    | Reread(leaf: Leaf)
    | Done(action: Action)

  /** `epoch` is the policy that was live when the control leaf was read, and
      `held` says that the socket was already captured when the packet arrived. */
  datatype Invocation = Invocation(packet: Packet, pc: Pc, epoch: Option<PolicyEpoch>, held: bool)

  datatype State = State(
    bank0: PolicyEpoch,
    bank1: PolicyEpoch,
    control: Leaf,
    storage: map<nat, Decision>,
    invs: map<nat, Invocation>,
    corrupt: bool)

  datatype Oracle = Oracle(pulled: bool, listener: bool, stored: bool, handedOff: bool)

  datatype Step =
    | Begin(id: nat, packet: Packet)
    | Advance(id: nat, oracle: Oracle)
    | WriteBank(bank: bool, content: PolicyEpoch)
    | CommitPolicy(desired: PolicyEpoch)
    | SwitchControl(active: bool, generation: nat)

  function Bank(s: State, b: bool): PolicyEpoch {
    if b then s.bank1 else s.bank0
  }

  /** The epoch a leaf names: the bank's maps under the leaf's direction. */
  function Named(s: State, leaf: Leaf): PolicyEpoch {
    Bank(s, leaf.bank).(cidrMode := leaf.cidrMode)
  }

  function Live(s: State): PolicyEpoch {
    Named(s, s.control)
  }

  function ModeIn(e: PolicyEpoch, uid: nat): Option<UidMode> {
    if uid in e.selected then Some(Selected)
    else if uid in e.draining then Some(Draining)
    else None
  }

  function Known(e: PolicyEpoch): set<nat> {
    e.selected + e.draining
  }

  // ------------------------------------------------------------------ cap_core

  function Obey(leaf: Leaf, d: Decision, o: Oracle): Action {
    if d.mode == Direct then Unspec
    else if !leaf.active then Shot
    else if d.generation != leaf.generation then Shot
    else if o.handedOff then Redirect
    else Shot
  }

  const DIRECT: Decision := Decision(true, Direct, 0)

  function CapturedUnder(leaf: Leaf): Decision {
    Decision(true, Captured, leaf.generation)
  }

  /** E3 to E5 up to the bypass lookup. */
  function AfterHeaders(p: Packet, leaf: Leaf, mode: UidMode, o: Oracle): Pc {
    if !o.pulled then Done(Unspec)
    else
      match p.kind
      case Malformed => Done(Unspec)
      case Fragment => SelfLookup(leaf, mode)
      case Tcp(syn, ack) =>
        if !(syn && !ack) then Done(Unspec)
        else if mode == Selected && leaf.active then SelfLookup(leaf, mode)
        else Create(leaf, DIRECT)
      case Udp =>
        if mode != Selected then Done(Unspec)
        else if !leaf.active then Done(Unspec)
        else SelfLookup(leaf, mode)
  }

  function AfterBypass(p: Packet, leaf: Leaf, mode: UidMode, hit: bool): Pc {
    match p.kind
    case Fragment => if !hit && mode == Selected && leaf.active then Done(Shot) else Done(Unspec)
    case Tcp(_, _) => if hit then Create(leaf, DIRECT) else Listener(leaf)
    case _ => if hit then Done(Unspec) else Listener(leaf)
  }

  function AfterListener(p: Packet, leaf: Leaf, o: Oracle): Pc {
    if p.kind.Tcp? then Create(leaf, if o.listener then CapturedUnder(leaf) else DIRECT)
    else if !o.listener then Done(Unspec)
    else Done(if o.handedOff then Redirect else Shot)
  }

  function AdvancePc(s: State, v: Invocation, o: Oracle): Pc
    requires !v.pc.Done?
  {
    var p := v.packet;
    match v.pc
    case ReadControl => ReadMode(s.control)
    case ReadMode(leaf) =>
      var mode := ModeIn(Bank(s, leaf.bank), p.uid);
      if mode.None? then Done(Unspec) else ReadDecision(leaf, mode.value)
    case ReadDecision(leaf, mode) =>
      if p.sock !in s.storage then Headers(leaf, mode)
      else if !s.storage[p.sock].sound then Done(Shot)
      else Done(Obey(leaf, s.storage[p.sock], o))
    case Headers(leaf, mode) => AfterHeaders(p, leaf, mode, o)
    case SelfLookup(leaf, mode) =>
      if SelfHit(Bank(s, leaf.bank), p.dest) then AfterBypass(p, leaf, mode, true) else TrieLookup(leaf, mode)
    case TrieLookup(leaf, mode) =>
      AfterBypass(p, leaf, mode, TagDirect(leaf.cidrMode, TagOf(Bank(s, leaf.bank), p.dest)))
    case Listener(leaf) => AfterListener(p, leaf, o)
    case Create(leaf, cand) =>
      if p.sock in s.storage then Done(Obey(leaf, s.storage[p.sock], o)) else Insert(leaf, cand)
    case Insert(leaf, cand) =>
      if p.sock in s.storage || !o.stored then Reread(leaf) else Done(Obey(leaf, cand, o))
    case Reread(leaf) =>
      if p.sock in s.storage then Done(Obey(leaf, s.storage[p.sock], o)) else Done(Unspec)
  }

  predicate Inserts(s: State, v: Invocation, o: Oracle) {
    v.pc.Insert? && v.packet.sock !in s.storage && o.stored
  }

  // ------------------------------------------------------------------ the steps

  predicate Admissible(p: Packet) {
    p.e0 && p.fullSock && p.uid != OVERFLOW_UID
  }

  predicate HoldsLeaf(v: Invocation, b: bool) {
    match v.pc
    case ReadControl => false
    case Done(_) => false
    case pc => pc.leaf.bank == b
  }

  /** uidOf fixes the UID of each socket. A bank may be rewritten only while it is
      idle: not named by the published leaf, nor by a leaf some invocation still
      holds. A policy commit publishes the idle bank once it holds the committed
      epoch, and leaves active and generation alone. */
  predicate Enabled(uidOf: nat -> nat, s: State, step: Step) {
    match step
    case Begin(id, p) => id !in s.invs && p.uid == uidOf(p.sock)
    case Advance(id, _) => id in s.invs && !s.invs[id].pc.Done?
    case WriteBank(b, _) => b != s.control.bank && forall id :: id in s.invs ==> !HoldsLeaf(s.invs[id], b)
    case CommitPolicy(desired) =>
      Bank(s, !s.control.bank).(cidrMode := desired.cidrMode) == Committed(Live(s), desired)
    case SwitchControl(_, _) => true
  }

  predicate CapturedIn(s: State, sock: nat) {
    sock in s.storage && s.storage[sock].mode == Captured
  }

  function Apply(uidOf: nat -> nat, s: State, step: Step): State
    requires Enabled(uidOf, s, step)
  {
    match step
    case Begin(id, p) =>
      var held := Admissible(p) && CapturedIn(s, p.sock);
      s.(invs := s.invs[id := Invocation(p, if Admissible(p) then ReadControl else Done(Unspec), None, held)])
    case Advance(id, o) =>
      var v := s.invs[id];
      var epoch := if v.pc.ReadControl? then Some(Live(s)) else v.epoch;
      s.(invs := s.invs[id := v.(pc := AdvancePc(s, v, o), epoch := epoch)],
         storage := if Inserts(s, v, o) then s.storage[v.packet.sock := v.pc.cand] else s.storage,
         corrupt := s.corrupt || (v.pc.ReadDecision? && v.packet.sock in s.storage && !s.storage[v.packet.sock].sound))
    case WriteBank(b, content) =>
      if b then s.(bank1 := content) else s.(bank0 := content)
    case CommitPolicy(desired) =>
      s.(control := s.control.(bank := !s.control.bank, cidrMode := desired.cidrMode))
    case SwitchControl(active, generation) =>
      s.(control := s.control.(active := active, generation := generation))
  }

  // ---------------------------------------------------------------- invariant

  ghost predicate StorageInv(uidOf: nat -> nat, s: State) {
    forall k :: k in s.storage ==>
      && s.storage[k].sound
      && (s.storage[k].mode == Captured ==> uidOf(k) in Known(Live(s)))
  }

  /** The policy an invocation works under has not been touched, and every UID it
      knows is still known. */
  ghost predicate LeafInv(s: State, v: Invocation, leaf: Leaf) {
    v.epoch.Some? && Named(s, leaf) == v.epoch.value && Known(v.epoch.value) <= Known(Live(s))
  }

  ghost predicate PcInv(s: State, v: Invocation) {
    var p := v.packet;
    match v.pc
    case ReadControl => true
    case ReadMode(leaf) => LeafInv(s, v, leaf)
    case ReadDecision(leaf, mode) => LeafInv(s, v, leaf) && ModeIn(v.epoch.value, p.uid) == Some(mode)
    case Headers(leaf, mode) => !v.held && LeafInv(s, v, leaf) && ModeIn(v.epoch.value, p.uid) == Some(mode)
    case SelfLookup(leaf, mode) =>
      !v.held && LeafInv(s, v, leaf) && ModeIn(v.epoch.value, p.uid) == Some(mode)
      && (p.kind.Fragment? || (leaf.active && mode == Selected))
    case TrieLookup(leaf, mode) =>
      !v.held && LeafInv(s, v, leaf) && ModeIn(v.epoch.value, p.uid) == Some(mode)
      && (p.kind.Fragment? || (leaf.active && mode == Selected))
      && !SelfHit(v.epoch.value, p.dest)
    case Listener(leaf) =>
      !v.held && LeafInv(s, v, leaf) && leaf.active && ObserveNewFlow(v.epoch.value, p.uid, p.dest) == Captured
    case Create(leaf, cand) => !v.held && LeafInv(s, v, leaf) && CandInv(v, leaf, cand)
    case Insert(leaf, cand) => !v.held && LeafInv(s, v, leaf) && CandInv(v, leaf, cand)
    case Reread(leaf) => !v.held && LeafInv(s, v, leaf)
    case Done(action) => v.held ==> action != Unspec
  }

  /** A captured candidate was admitted by the one epoch the invocation saw. */
  ghost predicate CandInv(v: Invocation, leaf: Leaf, cand: Decision) {
    && v.epoch.Some? && cand.sound
    && (cand.mode == Captured ==>
          && leaf.active && cand.generation == leaf.generation
          && ObserveNewFlow(v.epoch.value, v.packet.uid, v.packet.dest) == Captured)
    && (cand.mode == Direct ==> cand.generation == 0)
  }

  ghost predicate InvocationInv(uidOf: nat -> nat, s: State, v: Invocation) {
    && PcInv(s, v)
    && v.packet.uid == uidOf(v.packet.sock)
    && (v.held ==> CapturedIn(s, v.packet.sock))
    && (v.held && !v.pc.ReadControl? && !v.pc.Done? ==> v.epoch.Some? && v.packet.uid in Known(v.epoch.value))
  }

  ghost predicate Inv(uidOf: nat -> nat, s: State) {
    && !s.corrupt
    && StorageInv(uidOf, s)
    && forall id :: id in s.invs ==> InvocationInv(uidOf, s, s.invs[id])
  }

  // ------------------------------------------------------------------- proofs

  lemma EnvironmentKeepsPolicy(uidOf: nat -> nat, s: State, step: Step)
    requires Enabled(uidOf, s, step) && (step.WriteBank? || step.CommitPolicy? || step.SwitchControl?)
    ensures var t := Apply(uidOf, s, step);
            && Known(Live(s)) <= Known(Live(t))
            && t.storage == s.storage && t.invs == s.invs && t.corrupt == s.corrupt
            && forall id :: id in s.invs && !s.invs[id].pc.ReadControl? && !s.invs[id].pc.Done? ==>
                 Named(t, s.invs[id].pc.leaf) == Named(s, s.invs[id].pc.leaf)
  {
    var t := Apply(uidOf, s, step);
    if step.CommitPolicy? {
      CommitKeepsKnownUids(Live(s), step.desired);
    } else if step.WriteBank? {
      forall id | id in s.invs && !s.invs[id].pc.ReadControl? && !s.invs[id].pc.Done?
        ensures Named(t, s.invs[id].pc.leaf) == Named(s, s.invs[id].pc.leaf)
      {
        assert !HoldsLeaf(s.invs[id], step.bank);
      }
    }
  }

  lemma EnvironmentKeepsInvocation(uidOf: nat -> nat, s: State, step: Step, id: nat)
    requires Inv(uidOf, s) && Enabled(uidOf, s, step) && (step.WriteBank? || step.CommitPolicy? || step.SwitchControl?)
    requires id in s.invs
    ensures InvocationInv(uidOf, Apply(uidOf, s, step), s.invs[id])
  {
    hide Apply, Enabled, Known, ObserveNewFlow, SelfHit, ModeIn;
    EnvironmentKeepsPolicy(uidOf, s, step);
    assert InvocationInv(uidOf, s, s.invs[id]);
  }

  lemma EnvironmentKeepsInv(uidOf: nat -> nat, s: State, step: Step)
    requires Inv(uidOf, s) && Enabled(uidOf, s, step) && (step.WriteBank? || step.CommitPolicy? || step.SwitchControl?)
    ensures Inv(uidOf, Apply(uidOf, s, step))
  {
    hide Apply, Enabled, InvocationInv;
    EnvironmentKeepsPolicy(uidOf, s, step);
    forall id | id in s.invs ensures InvocationInv(uidOf, Apply(uidOf, s, step), s.invs[id]) {
      EnvironmentKeepsInvocation(uidOf, s, step, id);
    }
  }

  lemma AdvanceKeepsPc(uidOf: nat -> nat, s: State, step: Step)
    requires Inv(uidOf, s) && Enabled(uidOf, s, step) && step.Advance?
    ensures PcInv(Apply(uidOf, s, step), Apply(uidOf, s, step).invs[step.id])
  {
    hide Lpm, TagDirect, LongestFrom;
    var v := s.invs[step.id];
    assert InvocationInv(uidOf, s, v);
    if v.packet.sock in s.storage {
      assert s.storage[v.packet.sock].sound;
    }
    assert Live(Apply(uidOf, s, step)) == Live(s);
  }

  /** The invocation that moves keeps its own invariant. */
  lemma AdvanceKeepsSelf(uidOf: nat -> nat, s: State, step: Step)
    requires Inv(uidOf, s) && Enabled(uidOf, s, step) && step.Advance?
    ensures InvocationInv(uidOf, Apply(uidOf, s, step), Apply(uidOf, s, step).invs[step.id])
  {
    hide Lpm, TagDirect, LongestFrom, TagOf, SelfHit, ObserveNewFlow;
    AdvanceKeepsPc(uidOf, s, step);
    hide PcInv;
    var v := s.invs[step.id];
    assert InvocationInv(uidOf, s, v);
    assert v.held ==> CapturedIn(Apply(uidOf, s, step), v.packet.sock);
  }

  /** A new captured decision belongs to a UID the live policy still knows. */
  lemma AdvanceKeepsStorage(uidOf: nat -> nat, s: State, step: Step)
    requires Inv(uidOf, s) && Enabled(uidOf, s, step) && step.Advance?
    ensures StorageInv(uidOf, Apply(uidOf, s, step)) && !Apply(uidOf, s, step).corrupt
  {
    hide AdvancePc, TagOf, SelfHit, TagDirect;
    var v := s.invs[step.id];
    assert InvocationInv(uidOf, s, v);
  }

  lemma AdvanceKeepsOthers(uidOf: nat -> nat, s: State, step: Step, id: nat)
    requires Inv(uidOf, s) && Enabled(uidOf, s, step) && (step.Advance? || step.Begin?)
    requires id in s.invs && id != step.id
    ensures id in Apply(uidOf, s, step).invs
    ensures InvocationInv(uidOf, Apply(uidOf, s, step), Apply(uidOf, s, step).invs[id])
  {
    hide AdvancePc, ObserveNewFlow, SelfHit, ModeIn, Known;
    assert InvocationInv(uidOf, s, s.invs[id]);
  }

  lemma BeginKeepsInv(uidOf: nat -> nat, s: State, step: Step)
    requires Inv(uidOf, s) && Enabled(uidOf, s, step) && step.Begin?
    ensures Inv(uidOf, Apply(uidOf, s, step))
  {
    var t := Apply(uidOf, s, step);
    forall id | id in t.invs ensures InvocationInv(uidOf, t, t.invs[id]) {
      if id != step.id {
        AdvanceKeepsOthers(uidOf, s, step, id);
      }
    }
  }

  lemma AdvanceKeepsInv(uidOf: nat -> nat, s: State, step: Step)
    requires Inv(uidOf, s) && Enabled(uidOf, s, step) && step.Advance?
    ensures Inv(uidOf, Apply(uidOf, s, step))
  {
    hide InvocationInv, StorageInv, AdvancePc;
    var t := Apply(uidOf, s, step);
    AdvanceKeepsStorage(uidOf, s, step);
    forall id | id in t.invs ensures InvocationInv(uidOf, t, t.invs[id]) {
      if id != step.id {
        AdvanceKeepsOthers(uidOf, s, step, id);
      } else {
        AdvanceKeepsSelf(uidOf, s, step);
      }
    }
  }

  lemma InvKept(uidOf: nat -> nat, s: State, step: Step)
    requires Inv(uidOf, s) && Enabled(uidOf, s, step)
    ensures Inv(uidOf, Apply(uidOf, s, step))
  {
    hide Inv, Apply, Enabled;
    match step
    case Begin(_, _) => BeginKeepsInv(uidOf, s, step);
    case Advance(_, _) => AdvanceKeepsInv(uidOf, s, step);
    case _ => EnvironmentKeepsInv(uidOf, s, step);
  }

  // --------------------------------------------------------------------- runs

  /** A run starts with a published leaf and no socket storage; the epochs in the
      banks are arbitrary. */
  ghost predicate Run(uidOf: nat -> nat, states: seq<State>, steps: seq<Step>) {
    && |states| == |steps| + 1
    && states[0].storage == map[] && states[0].invs == map[] && !states[0].corrupt
    && forall i :: 0 <= i < |steps| ==>
         Enabled(uidOf, states[i], steps[i]) && states[i + 1] == Apply(uidOf, states[i], steps[i])
  }

  lemma {:induction false} RunInv(uidOf: nat -> nat, states: seq<State>, steps: seq<Step>, i: nat)
    requires Run(uidOf, states, steps) && i < |states|
    ensures Inv(uidOf, states[i])
  {
    hide Apply, Enabled, InvocationInv;
    if i > 0 {
      RunInv(uidOf, states, steps, i - 1);
      hide Inv;
      InvKept(uidOf, states[i - 1], steps[i - 1]);
    }
  }

  lemma StorageOnlyGrows(uidOf: nat -> nat, s: State, step: Step, sock: nat)
    requires Enabled(uidOf, s, step) && sock in s.storage
    ensures sock in Apply(uidOf, s, step).storage && Apply(uidOf, s, step).storage[sock] == s.storage[sock]
  {
    hide AdvancePc;
  }

  /** A socket's decision is written at most once. */
  lemma {:induction false} DecisionWrittenOnce(
    uidOf: nat -> nat, states: seq<State>, steps: seq<Step>, i: nat, j: nat, sock: nat)
    requires Run(uidOf, states, steps) && i <= j < |states| && sock in states[i].storage
    ensures sock in states[j].storage && states[j].storage[sock] == states[i].storage[sock]
    decreases j - i
  {
    hide Apply, Enabled;
    if i < j {
      DecisionWrittenOnce(uidOf, states, steps, i, j - 1, sock);
      StorageOnlyGrows(uidOf, states[j - 1], steps[j - 1], sock);
    }
  }

  lemma HeldKept(uidOf: nat -> nat, s: State, step: Step, id: nat)
    requires Enabled(uidOf, s, step) && id in s.invs
    ensures id in Apply(uidOf, s, step).invs
    ensures Apply(uidOf, s, step).invs[id].held == s.invs[id].held
    ensures Apply(uidOf, s, step).invs[id].packet == s.invs[id].packet
  {
    hide AdvancePc;
  }

  lemma {:induction false} HeldStays(uidOf: nat -> nat, states: seq<State>, steps: seq<Step>, i: nat, j: nat, id: nat)
    requires Run(uidOf, states, steps) && i <= j < |states| && id in states[i].invs
    ensures id in states[j].invs && states[j].invs[id].held == states[i].invs[id].held
    ensures states[j].invs[id].packet == states[i].invs[id].packet
    decreases j - i
  {
    hide Apply, Enabled;
    if i < j {
      HeldStays(uidOf, states, steps, i, j - 1, id);
      HeldKept(uidOf, states[j - 1], steps[j - 1], id);
    }
  }

  /** No leak: once a socket is captured, every packet that arrives later ends in
      a redirect or a drop, whatever policy and control do in the meantime. */
  lemma CapturedNeverLeaks(uidOf: nat -> nat, states: seq<State>, steps: seq<Step>, i: nat, j: nat)
    requires Run(uidOf, states, steps) && i < |steps| && i < j < |states|
    requires steps[i].Begin? && Admissible(steps[i].packet) && CapturedIn(states[i], steps[i].packet.sock)
    requires steps[i].id in states[j].invs && states[j].invs[steps[i].id].pc.Done?
    ensures states[j].invs[steps[i].id].pc.action == Shot || states[j].invs[steps[i].id].pc.action == Redirect
  {
    var id := steps[i].id;
    assert states[i + 1] == Apply(uidOf, states[i], steps[i]);
    HeldStays(uidOf, states, steps, i + 1, j, id);
    RunInv(uidOf, states, steps, j);
    assert InvocationInv(uidOf, states[j], states[j].invs[id]);
  }

  /** How many shared accesses an invocation may still make. */
  function Remaining(pc: Pc): nat {
    match pc
    case ReadControl => 10
    case ReadMode(_) => 9
    case ReadDecision(_, _) => 8
    case Headers(_, _) => 7
    case SelfLookup(_, _) => 6
    case TrieLookup(_, _) => 5
    case Listener(_) => 4
    case Create(_, _) => 3
    case Insert(_, _) => 2
    case Reread(_) => 1
    case Done(_) => 0
  }

  /** Every invocation ends: no interleaving makes one go back. */
  lemma AdvanceMakesProgress(s: State, v: Invocation, o: Oracle)
    requires !v.pc.Done?
    ensures Remaining(AdvancePc(s, v, o)) < Remaining(v.pc)
  {
    hide TagOf, SelfHit, TagDirect, ModeIn;
  }

  /** Step k of the run is the read of the control leaf by invocation id. */
  ghost predicate ReadsControl(states: seq<State>, steps: seq<Step>, k: nat, id: nat)
    requires k < |steps| <= |states|
  {
    match steps[k]
    case Advance(i, _) => i == id && id in states[k].invs && states[k].invs[id].pc.ReadControl?
    case _ => false
  }

  lemma LeafKept(s: State, v: Invocation, o: Oracle)
    requires !v.pc.Done? && !v.pc.ReadControl?
    ensures var pc := AdvancePc(s, v, o); !pc.ReadControl? && (pc.Done? || pc.leaf == v.pc.leaf)
  {
    hide TagOf, SelfHit, TagDirect, ModeIn;
  }

  lemma StepKeepsLeaf(uidOf: nat -> nat, s: State, step: Step, id: nat)
    requires Enabled(uidOf, s, step) && id in Apply(uidOf, s, step).invs
    requires var pc := Apply(uidOf, s, step).invs[id].pc; !pc.Done? && !pc.ReadControl?
    ensures id in s.invs && !s.invs[id].pc.Done?
    ensures var w := Apply(uidOf, s, step).invs[id];
            if s.invs[id].pc.ReadControl?
            then step.Advance? && step.id == id && w.epoch == Some(Live(s)) && w.pc.leaf == s.control
            else w.epoch == s.invs[id].epoch && w.pc.leaf == s.invs[id].pc.leaf
  {
    if step.Advance? && step.id == id && !s.invs[id].pc.ReadControl? {
      LeafKept(s, s.invs[id], step.oracle);
      hide AdvancePc;
    }
  }

  /** What an invocation holds is the leaf, and the epoch, that were live when it read
      the control leaf. */
  lemma {:induction false} HeldLeafWasLive(uidOf: nat -> nat, states: seq<State>, steps: seq<Step>, i: nat, id: nat)
    requires Run(uidOf, states, steps) && i < |states| && id in states[i].invs
    requires !states[i].invs[id].pc.Done? && !states[i].invs[id].pc.ReadControl?
    ensures exists k: nat ::
              && k < i && ReadsControl(states, steps, k, id)
              && states[i].invs[id].pc.leaf == states[k].control && states[i].invs[id].epoch == Some(Live(states[k]))
  {
    assert i > 0;
    assert states[i] == Apply(uidOf, states[i - 1], steps[i - 1]);
    StepKeepsLeaf(uidOf, states[i - 1], steps[i - 1], id);
    hide Apply, Enabled, Live;
    if states[i - 1].invs[id].pc.ReadControl? {
      assert ReadsControl(states, steps, i - 1, id);
    } else {
      HeldLeafWasLive(uidOf, states, steps, i - 1, id);
    }
  }

  /** One epoch per verdict: a captured decision that an invocation writes was captured
      by the one epoch live at an earlier step of the run, where the invocation read the
      control leaf; capture was on there, and no UID known then is forgotten since. */
  lemma AdmissionUnderOneEpoch(uidOf: nat -> nat, states: seq<State>, steps: seq<Step>, i: nat)
    requires Run(uidOf, states, steps) && i < |steps| && steps[i].Advance?
    requires var v := states[i].invs[steps[i].id];
             steps[i].id in states[i].invs && Inserts(states[i], v, steps[i].oracle) && v.pc.cand.mode == Captured
    ensures var v := states[i].invs[steps[i].id];
            exists k: nat ::
              && k < i && ReadsControl(states, steps, k, steps[i].id)
              && states[k].control.active && v.pc.cand == CapturedUnder(states[k].control)
              && ObserveNewFlow(Live(states[k]), v.packet.uid, v.packet.dest) == Captured
              && Known(Live(states[k])) <= Known(Live(states[i]))
  {
    RunInv(uidOf, states, steps, i);
    assert InvocationInv(uidOf, states[i], states[i].invs[steps[i].id]);
    HeldLeafWasLive(uidOf, states, steps, i, steps[i].id);
  }

  /** Step k of the run inserts the decision of sock. */
  ghost predicate InsertsAt(states: seq<State>, steps: seq<Step>, k: nat, sock: nat, d: Decision)
    requires k < |steps| <= |states|
  {
    match steps[k]
    case Advance(id, o) =>
      && id in states[k].invs && Inserts(states[k], states[k].invs[id], o)
      && states[k].invs[id].packet.sock == sock && states[k].invs[id].pc.cand == d
    case _ => false
  }

  lemma StoredByStep(uidOf: nat -> nat, s: State, step: Step, sock: nat)
    requires Enabled(uidOf, s, step) && sock in Apply(uidOf, s, step).storage
    ensures var d := Apply(uidOf, s, step).storage[sock];
            || (sock in s.storage && s.storage[sock] == d)
            || (step.Advance? && step.id in s.invs && Inserts(s, s.invs[step.id], step.oracle)
                && s.invs[step.id].packet.sock == sock && s.invs[step.id].pc.cand == d)
  {
    hide AdvancePc;
  }

  /** Every stored decision was inserted by some step. */
  lemma {:induction false} StoredWasInserted(uidOf: nat -> nat, states: seq<State>, steps: seq<Step>, i: nat, sock: nat)
    requires Run(uidOf, states, steps) && i < |states| && sock in states[i].storage
    ensures exists k: nat :: k < i && InsertsAt(states, steps, k, sock, states[i].storage[sock])
  {
    assert i > 0;
    assert states[i] == Apply(uidOf, states[i - 1], steps[i - 1]);
    hide Apply, Enabled, Inserts;
    StoredByStep(uidOf, states[i - 1], steps[i - 1], sock);
    if sock in states[i - 1].storage && states[i - 1].storage[sock] == states[i].storage[sock] {
      StoredWasInserted(uidOf, states, steps, i - 1, sock);
    } else {
      assert InsertsAt(states, steps, i - 1, sock, states[i].storage[sock]);
    }
  }

  /** So every captured decision in storage goes back to one read of the control leaf, by
      an invocation on that socket, under whose live epoch and active leaf it was taken. */
  lemma StoredUnderOneEpoch(uidOf: nat -> nat, states: seq<State>, steps: seq<Step>, i: nat, sock: nat)
    requires Run(uidOf, states, steps) && i < |states| && CapturedIn(states[i], sock)
    ensures exists j: nat, k: nat ::
              && j < k < i && steps[k].Advance? && InsertsAt(states, steps, k, sock, states[i].storage[sock])
              && ReadsControl(states, steps, j, steps[k].id)
              && states[j].control.active && states[i].storage[sock] == CapturedUnder(states[j].control)
              && ObserveNewFlow(Live(states[j]), uidOf(sock), states[k].invs[steps[k].id].packet.dest) == Captured
              && Known(Live(states[j])) <= Known(Live(states[k]))
  {
    hide Apply, Enabled, ObserveNewFlow, Live, Known;
    StoredWasInserted(uidOf, states, steps, i, sock);
    var k: nat :| k < i && InsertsAt(states, steps, k, sock, states[i].storage[sock]);
    AdmissionUnderOneEpoch(uidOf, states, steps, k);
    RunInv(uidOf, states, steps, k);
    hide PcInv, Run;
    assert InvocationInv(uidOf, states[k], states[k].invs[steps[k].id]);
  }

  /** The corrupt-decision branches are never taken. */
  lemma NeverCorrupt(uidOf: nat -> nat, states: seq<State>, steps: seq<Step>, i: nat, sock: nat)
    requires Run(uidOf, states, steps) && i < |states|
    ensures !states[i].corrupt
    ensures sock in states[i].storage ==> states[i].storage[sock].sound
  {
    RunInv(uidOf, states, steps, i);
  }
}
