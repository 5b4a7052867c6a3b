/** Publication of the bypass set to lock-free readers. Readers, SET_BYPASS calls
    and module exit are interleaved one memory access at a time, on sequentially
    consistent memory; synchronize_rcu waits for the read-side sections that were
    open when it began. */
module BypassRcu {
  import opened Wrappers
  import K = BypassKernel

  type Id = nat

  // A set has five parts, written and read one at a time.
  const PARTS: nat := 5

  function CopyPart(dst: K.Published, src: K.Published, k: nat): K.Published {
    if k == 0 then dst.(cidrMode := src.cidrMode)
    else if k == 1 then dst.(v4 := src.v4)
    else if k == 2 then dst.(v6 := src.v6)
    else if k == 3 then dst.(self4 := src.self4)
    else dst.(self6 := src.self6)
  }

  predicate AgreeUpTo(a: K.Published, b: K.Published, k: nat) {
    && (k > 0 ==> a.cidrMode == b.cidrMode)
    && (k > 1 ==> a.v4 == b.v4)
    && (k > 2 ==> a.v6 == b.v6)
    && (k > 3 ==> a.self4 == b.self4)
    && (k > 4 ==> a.self6 == b.self6)
  }

  /** A call in flight. Exit is a call that publishes nothing. */
  datatype Call =
    | Building(set_: Id, k: nat)
    | Ready(next: Option<Id>)
    | Locked(next: Option<Id>)
    | Swapping(next: Option<Id>, old_: Option<Id>)
    | Swapped(old_: Option<Id>)
    | Unlocked(old_: Option<Id>)
    | Waiting(old_: Option<Id>, blockers: set<nat>)
    | Synced(old_: Option<Id>)

  /** A read-side section of fluxrs_policy_direct. `target` is the complete set
      that was live at the dereference. */
  datatype Section =
    | Entered
    | Holding(ptr: Option<Id>, k: nat, scratch: K.Published, target: Option<K.Published>)
    | Left(used: Option<K.Published>, target: Option<K.Published>)

  datatype State = State(
    live: Option<Id>,
    mutex: Option<nat>,
    heap: map<Id, K.Published>,
    goal: map<Id, K.Published>,
    freed: seq<Id>,
    calls: map<nat, Call>,
    sections: map<nat, Section>,
    fault: bool)

  const INITIAL: State := State(None, None, map[], map[], [], map[], map[], false)

  datatype Step =
    | Allocate(call: nat, id: Id, garbage: K.Published, goal: K.Published)
    | Fill(call: nat)
    | Fail(call: nat)
    | Built(call: nat)
    | StartExit(call: nat)
    | Lock(call: nat)
    | LoadOld(call: nat)
    | Assign(call: nat)
    | Unlock(call: nat)
    | BeginSync(call: nat)
    | EndSync(call: nat)
    | FreeOld(call: nat)
    | Enter(section: nat)
    | Dereference(section: nat, blank: K.Published)
    | ReadPart(section: nat, garbage: K.Published)
    | Leave(section: nat)

  predicate Open(s: State, r: nat) {
    r in s.sections && !s.sections[r].Left?
  }

  predicate Enabled(s: State, step: Step) {
    match step
    case Allocate(c, id, _, _) => c !in s.calls && id !in s.heap && id !in s.freed
    case Fill(c) => c in s.calls && s.calls[c].Building? && s.calls[c].k < PARTS
    case Fail(c) => c in s.calls && s.calls[c].Building?
    case Built(c) => c in s.calls && s.calls[c].Building? && s.calls[c].k == PARTS
    case StartExit(c) => c !in s.calls
    case Lock(c) => c in s.calls && s.calls[c].Ready? && s.mutex.None?
    case LoadOld(c) => c in s.calls && s.calls[c].Locked?
    case Assign(c) => c in s.calls && s.calls[c].Swapping?
    case Unlock(c) => c in s.calls && s.calls[c].Swapped?
    case BeginSync(c) => c in s.calls && s.calls[c].Unlocked?
    case EndSync(c) => c in s.calls && s.calls[c].Waiting? && forall r :: r in s.calls[c].blockers ==> !Open(s, r)
    case FreeOld(c) => c in s.calls && s.calls[c].Synced?
    case Enter(r) => r !in s.sections
    case Dereference(r, _) => r in s.sections && s.sections[r].Entered?
    case ReadPart(r, _) => r in s.sections && s.sections[r].Holding? && s.sections[r].ptr.Some? && s.sections[r].k < PARTS
    case Leave(r) => r in s.sections && s.sections[r].Holding? && (s.sections[r].ptr.Some? ==> s.sections[r].k == PARTS)
  }

  /** kvfree; freeing what is not allocated is a fault. */
  function Free(s: State, id: Option<Id>): State {
    if id.None? then s
    else if id.value !in s.heap then s.(fault := true)
    else s.(heap := s.heap - {id.value}, freed := s.freed + [id.value])
  }

  function Apply(s: State, step: Step): State
    requires Enabled(s, step)
  {
    match step
    case Allocate(c, id, garbage, goal) =>
      s.(heap := s.heap[id := garbage], goal := s.goal[id := goal], calls := s.calls[c := Building(id, 0)])
    case Fill(c) =>
      var id, k := s.calls[c].set_, s.calls[c].k;
      if id in s.heap && id in s.goal
      then s.(heap := s.heap[id := CopyPart(s.heap[id], s.goal[id], k)], calls := s.calls[c := Building(id, k + 1)])
      else s.(fault := true)
    case Fail(c) => Free(s.(calls := s.calls - {c}), Some(s.calls[c].set_))
    case Built(c) => s.(calls := s.calls[c := Ready(Some(s.calls[c].set_))])
    case StartExit(c) => s.(calls := s.calls[c := Ready(None)])
    case Lock(c) => s.(mutex := Some(c), calls := s.calls[c := Locked(s.calls[c].next)])
    case LoadOld(c) => s.(calls := s.calls[c := Swapping(s.calls[c].next, s.live)])
    case Assign(c) => s.(live := s.calls[c].next, calls := s.calls[c := Swapped(s.calls[c].old_)])
    case Unlock(c) => s.(mutex := None, calls := s.calls[c := Unlocked(s.calls[c].old_)])
    case BeginSync(c) => s.(calls := s.calls[c := Waiting(s.calls[c].old_, set r | r in s.sections && Open(s, r))])
    case EndSync(c) => s.(calls := s.calls[c := Synced(s.calls[c].old_)])
    case FreeOld(c) => Free(s.(calls := s.calls - {c}), s.calls[c].old_)
    case Enter(r) => s.(sections := s.sections[r := Entered])
    case Dereference(r, blank) =>
      var target := if s.live.Some? && s.live.value in s.goal then Some(s.goal[s.live.value]) else None;
      s.(sections := s.sections[r := Holding(s.live, 0, blank, target)])
    case ReadPart(r, garbage) =>
      var h := s.sections[r];
      if h.ptr.value in s.heap
      then s.(sections := s.sections[r := h.(k := h.k + 1, scratch := CopyPart(h.scratch, s.heap[h.ptr.value], h.k))])
      else s.(fault := true, sections := s.sections[r := h.(k := h.k + 1, scratch := garbage)])
    case Leave(r) =>
      var h := s.sections[r];
      s.(sections := s.sections[r := Left(if h.ptr.Some? then Some(h.scratch) else None, h.target)])
  }

  // ---------------------------------------------------------------- invariant

  /** The set a call is responsible for. */
  function Owned(c: Call): Option<Id> {
    match c
    case Building(id, _) => Some(id)
    case Ready(next) => next
    case Locked(next) => next
    case Swapping(next, _) => next
    case Swapped(old_) => old_
    case Unlocked(old_) => old_
    case Waiting(old_, _) => old_
    case Synced(old_) => old_
  }

  predicate HoldsMutex(c: Call) {
    c.Locked? || c.Swapping? || c.Swapped?
  }

  /** The set is public to readers that dereferenced before the swap. */
  predicate Retiring(c: Call) {
    c.Swapped? || c.Unlocked? || c.Waiting?
  }

  ghost predicate MutexInv(s: State) {
    && (forall c :: c in s.calls && HoldsMutex(s.calls[c]) ==> s.mutex == Some(c))
    && (forall c :: c in s.calls && s.calls[c].Swapping? ==> s.calls[c].old_ == s.live)
  }

  ghost predicate HasOwner(s: State, id: Id) {
    s.live == Some(id) || exists c :: c in s.calls && Owned(s.calls[c]) == Some(id)
  }

  /** Every allocated set has exactly one owner, and freed ones never come back. */
  ghost predicate OwnershipInv(s: State) {
    && (s.live.Some? ==> s.live.value in s.heap)
    && (forall c :: c in s.calls && Owned(s.calls[c]).Some? ==>
          Owned(s.calls[c]).value in s.heap && Owned(s.calls[c]) != s.live)
    && (forall c, d :: c in s.calls && d in s.calls && c != d && Owned(s.calls[c]).Some? ==>
          Owned(s.calls[c]) != Owned(s.calls[d]))
    && (forall id :: id in s.heap ==> HasOwner(s, id))
    && (forall i :: 0 <= i < |s.freed| ==> s.freed[i] !in s.heap)
    && (forall i, j :: 0 <= i < j < |s.freed| ==> s.freed[i] != s.freed[j])
  }

  /** Only a set under construction differs from what it is meant to be. */
  ghost predicate ContentInv(s: State) {
    && (forall id :: id in s.heap ==> id in s.goal)
    && (forall c :: c in s.calls && s.calls[c].Building? && s.calls[c].set_ in s.heap && s.calls[c].set_ in s.goal ==>
          s.calls[c].k <= PARTS && AgreeUpTo(s.heap[s.calls[c].set_], s.goal[s.calls[c].set_], s.calls[c].k))
    && (forall id :: id in s.heap && id in s.goal && !UnderConstruction(s, id) ==> s.heap[id] == s.goal[id])
  }

  ghost predicate UnderConstruction(s: State, id: Id) {
    exists c :: c in s.calls && s.calls[c].Building? && s.calls[c].set_ == id
  }

  /** A set some reader still holds is live, or retired and waited for. */
  ghost predicate Protected(s: State, r: nat, id: Id) {
    || s.live == Some(id)
    || exists c :: c in s.calls && Retiring(s.calls[c]) && s.calls[c].old_ == Some(id)
                   && (s.calls[c].Waiting? ==> r in s.calls[c].blockers)
  }

  ghost predicate SectionInv(s: State, r: nat, section: Section) {
    match section
    case Entered => true
    case Holding(ptr, k, scratch, target) =>
      if ptr.None? then target.None?
      else
        && Protected(s, r, ptr.value)
        && ptr.value in s.goal && target == Some(s.goal[ptr.value])
        && k <= PARTS && AgreeUpTo(scratch, s.goal[ptr.value], k)
    case Left(used, target) => used == target
  }

  ghost predicate ReaderInv(s: State) {
    forall r :: r in s.sections ==> SectionInv(s, r, s.sections[r])
  }

  ghost predicate Inv(s: State) {
    !s.fault && MutexInv(s) && OwnershipInv(s) && ContentInv(s) && ReaderInv(s)
  }

  // ------------------------------------------------------------------- proofs

  lemma HeldSetsAreComplete(s: State, r: nat)
    requires Inv(s) && r in s.sections && s.sections[r].Holding? && s.sections[r].ptr.Some?
    ensures var id := s.sections[r].ptr.value; id in s.heap && id in s.goal && s.heap[id] == s.goal[id]
  {
    var id := s.sections[r].ptr.value;
    assert Protected(s, r, id);
    assert forall c :: c in s.calls && s.calls[c].Building? ==> Owned(s.calls[c]) == Some(s.calls[c].set_);
  }

  lemma MutexKept(s: State, step: Step)
    requires MutexInv(s) && Enabled(s, step)
    ensures MutexInv(Apply(s, step))
  {
  }

  lemma AgreeNext(a: K.Published, b: K.Published, k: nat)
    requires AgreeUpTo(a, b, k) && k < PARTS
    ensures AgreeUpTo(CopyPart(a, b, k), b, k + 1)
  {
  }

  lemma AgreeEnds(a: K.Published, b: K.Published)
    ensures AgreeUpTo(a, b, 0) && (AgreeUpTo(a, b, PARTS) ==> a == b)
  {
  }

  predicate Builds(step: Step) {
    step.Allocate? || step.Fill? || step.Built? || step.StartExit?
  }

  predicate Frees(step: Step) {
    step.Fail? || step.FreeOld?
  }

  predicate Reads(step: Step) {
    step.Enter? || step.Dereference? || step.ReadPart? || step.Leave?
  }

  /** Nothing but call c changed hands. */
  ghost predicate Elsewhere(s: State, t: State, c: nat) {
    forall d :: d != c ==> (d in t.calls <==> d in s.calls) && (d in s.calls ==> t.calls[d] == s.calls[d])
  }

  predicate Swaps(step: Step) {
    step.Lock? || step.LoadOld? || step.Assign? || step.Unlock? || step.BeginSync? || step.EndSync?
  }

  lemma BuildingFacts(s: State, step: Step)
    requires OwnershipInv(s) && ContentInv(s) && Enabled(s, step) && Builds(step)
    ensures var t, c := Apply(s, step), step.call;
            && Elsewhere(s, t, c) && c in t.calls && t.live == s.live && t.freed == s.freed
            && (step.Allocate? ==>
                  && c !in s.calls && step.id !in s.heap && step.id !in s.freed
                  && t.heap == s.heap[step.id := step.garbage] && t.calls[c] == Building(step.id, 0)
                  && t.goal == s.goal[step.id := step.goal])
            && (step.StartExit? ==> c !in s.calls && t.heap == s.heap && t.goal == s.goal && t.calls[c] == Ready(None))
            && (step.Fill? || step.Built? ==>
                  && c in s.calls && s.calls[c].Building? && t.goal == s.goal
                  && Owned(t.calls[c]) == Owned(s.calls[c]) && t.heap.Keys == s.heap.Keys)
            && (step.Fill? ==> var id := s.calls[c].set_;
                  && id in s.heap && id in s.goal && s.calls[c].k < PARTS && t.calls[c] == Building(id, s.calls[c].k + 1)
                  && t.heap == s.heap[id := CopyPart(s.heap[id], s.goal[id], s.calls[c].k)])
            && (step.Built? ==> t.heap == s.heap && t.calls[c] == Ready(Some(s.calls[c].set_)) && s.calls[c].k == PARTS)
  {
    hide HasOwner, CopyPart, AgreeUpTo, UnderConstruction;
    if step.Fill? {
      assert Owned(s.calls[step.call]) == Some(s.calls[step.call].set_);
    }
  }

  lemma FreeingFacts(s: State, step: Step)
    requires OwnershipInv(s) && Enabled(s, step) && Frees(step)
    ensures var t, c := Apply(s, step), step.call;
            && Elsewhere(s, t, c) && c in s.calls && c !in t.calls && t.live == s.live && t.goal == s.goal
            && (Owned(s.calls[c]).None? ==> t.heap == s.heap && t.freed == s.freed)
            && (Owned(s.calls[c]).Some? ==> var id := Owned(s.calls[c]).value;
                  id in s.heap && t.heap == s.heap - {id} && t.freed == s.freed + [id])
  {
    hide HasOwner, CopyPart, AgreeUpTo;
  }

  lemma SwappingFacts(s: State, step: Step)
    requires Enabled(s, step) && Swaps(step)
    ensures var t, c := Apply(s, step), step.call;
            && Elsewhere(s, t, c) && c in s.calls && c in t.calls
            && t.heap == s.heap && t.goal == s.goal && t.freed == s.freed
            && !s.calls[c].Building? && !t.calls[c].Building?
            && (if step.Assign? then s.calls[c].Swapping? && t.live == Owned(s.calls[c])
                && Owned(t.calls[c]) == s.calls[c].old_
                else t.live == s.live && Owned(t.calls[c]) == Owned(s.calls[c]))
  {
  }

  lemma ReadingFacts(s: State, step: Step)
    requires Enabled(s, step) && Reads(step)
    ensures var t := Apply(s, step);
            t.heap == s.heap && t.goal == s.goal && t.live == s.live && t.calls == s.calls && t.freed == s.freed
  {
  }

  lemma OwnershipKeptByBuilding(s: State, step: Step)
    requires OwnershipInv(s) && ContentInv(s) && Enabled(s, step) && Builds(step)
    ensures OwnershipInv(Apply(s, step))
  {
    hide ContentInv, Enabled, Apply;
    hide HasOwner;
    BuildingFacts(s, step);
    var t := Apply(s, step);
    forall id | id in t.heap ensures HasOwner(t, id) {
      BuildingKeepsOwner(s, step, id);
    }
  }

  lemma BuildingKeepsOwner(s: State, step: Step, id: Id)
    requires OwnershipInv(s) && ContentInv(s) && Enabled(s, step) && Builds(step) && id in Apply(s, step).heap
    ensures HasOwner(Apply(s, step), id)
  {
    hide ContentInv, Enabled, Apply;
    BuildingFacts(s, step);
    var t := Apply(s, step);
    if step.Allocate? && id == step.id {
      assert Owned(t.calls[step.call]) == Some(id);
    } else {
      assert HasOwner(s, id);
      if s.live != Some(id) {
        var c :| c in s.calls && Owned(s.calls[c]) == Some(id);
        assert c in t.calls && Owned(t.calls[c]) == Some(id);
      }
    }
  }

  lemma OwnershipKeptByFreeing(s: State, step: Step)
    requires OwnershipInv(s) && Enabled(s, step) && Frees(step)
    ensures OwnershipInv(Apply(s, step))
  {
    hide Enabled, Apply;
    FreeingFacts(s, step);
    var t := Apply(s, step);
    forall id | id in t.heap ensures HasOwner(t, id) {
      assert HasOwner(s, id);
      if s.live != Some(id) {
        var c :| c in s.calls && Owned(s.calls[c]) == Some(id);
        assert c in t.calls;
      }
    }
  }

  lemma OwnershipKeptBySwapping(s: State, step: Step)
    requires MutexInv(s) && OwnershipInv(s) && Enabled(s, step) && Swaps(step)
    ensures OwnershipInv(Apply(s, step))
  {
    hide Enabled, Apply;
    SwappingFacts(s, step);
    var t := Apply(s, step);
    forall id | id in t.heap ensures HasOwner(t, id) {
      assert HasOwner(s, id);
      if s.live == Some(id) {
        assert step.Assign? ==> Owned(t.calls[step.call]) == Some(id);
      } else {
        var c :| c in s.calls && Owned(s.calls[c]) == Some(id);
        assert !(step.Assign? && c == step.call) ==> Owned(t.calls[c]) == Some(id);
      }
    }
  }

  lemma OwnershipKeptByReading(s: State, step: Step)
    requires OwnershipInv(s) && Enabled(s, step) && Reads(step)
    ensures OwnershipInv(Apply(s, step))
  {
    hide Enabled, Apply;
    ReadingFacts(s, step);
    assert forall id :: HasOwner(s, id) ==> HasOwner(Apply(s, step), id);
  }

  lemma OwnershipKept(s: State, step: Step)
    requires MutexInv(s) && OwnershipInv(s) && ContentInv(s) && Enabled(s, step)
    ensures OwnershipInv(Apply(s, step))
  {
    hide OwnershipInv, ContentInv, MutexInv, Apply, Enabled;
    if Builds(step) {
      OwnershipKeptByBuilding(s, step);
    } else if Frees(step) {
      OwnershipKeptByFreeing(s, step);
    } else if Swaps(step) {
      OwnershipKeptBySwapping(s, step);
    } else {
      OwnershipKeptByReading(s, step);
    }
  }

  lemma ContentKeptByAllocating(s: State, step: Step)
    requires OwnershipInv(s) && ContentInv(s) && Enabled(s, step) && step.Allocate?
    ensures ContentInv(Apply(s, step))
  {
    hide HasOwner, Enabled, Apply, AgreeUpTo, CopyPart;
    BuildingFacts(s, step);
    AgreeEnds(step.garbage, step.goal);
    var t := Apply(s, step);
    assert t.calls[step.call].Building? && UnderConstruction(t, step.id);
    forall id | id in t.heap && id in t.goal && !UnderConstruction(t, id) ensures t.heap[id] == t.goal[id] {
      assert UnderConstruction(s, id) ==> UnderConstruction(t, id);
    }
  }

  lemma ContentKeptByFilling(s: State, step: Step)
    requires OwnershipInv(s) && ContentInv(s) && Enabled(s, step) && step.Fill?
    ensures ContentInv(Apply(s, step))
  {
    hide HasOwner, Enabled, Apply, AgreeUpTo, CopyPart;
    BuildingFacts(s, step);
    var t, c := Apply(s, step), step.call;
    var id := s.calls[c].set_;
    AgreeNext(s.heap[id], s.goal[id], s.calls[c].k);
    assert forall d :: d in s.calls && d != c && s.calls[d].Building? ==> s.calls[d].set_ != id by {
      assert forall d :: d in s.calls && s.calls[d].Building? ==> Owned(s.calls[d]) == Some(s.calls[d].set_);
    }
    assert t.calls[c].Building? && UnderConstruction(t, id);
    forall j | j in t.heap && j in t.goal && !UnderConstruction(t, j) ensures t.heap[j] == t.goal[j] {
      assert UnderConstruction(s, j) ==> UnderConstruction(t, j);
    }
  }

  lemma ContentKeptByFinishing(s: State, step: Step)
    requires OwnershipInv(s) && ContentInv(s) && Enabled(s, step) && (step.Built? || step.StartExit?)
    ensures ContentInv(Apply(s, step))
  {
    hide HasOwner, Enabled, Apply, AgreeUpTo, CopyPart;
    BuildingFacts(s, step);
    var t, c := Apply(s, step), step.call;
    if step.Built? {
      assert Owned(s.calls[c]) == Some(s.calls[c].set_);
      AgreeEnds(s.heap[s.calls[c].set_], s.goal[s.calls[c].set_]);
    }
    forall j | j in t.heap && j in t.goal && !UnderConstruction(t, j) ensures t.heap[j] == t.goal[j] {
      assert UnderConstruction(s, j) && !(step.Built? && s.calls[c].set_ == j) ==> UnderConstruction(t, j);
    }
  }

  /** No set changes and no construction moves. */
  lemma SameContent(s: State, t: State)
    requires ContentInv(s) && t.goal == s.goal
    requires forall id :: id in t.heap ==> id in s.heap && t.heap[id] == s.heap[id]
    requires forall c :: c in t.calls && t.calls[c].Building? ==> c in s.calls && t.calls[c] == s.calls[c]
    requires forall c :: c in s.calls && s.calls[c].Building? && s.calls[c].set_ in t.heap ==>
               c in t.calls && t.calls[c] == s.calls[c]
    ensures ContentInv(t)
  {
    hide AgreeUpTo;
    forall id | id in t.heap && id in t.goal && !UnderConstruction(t, id) ensures t.heap[id] == t.goal[id] {
      assert !UnderConstruction(s, id);
    }
  }

  lemma ContentKeptOtherwise(s: State, step: Step)
    requires OwnershipInv(s) && ContentInv(s) && Enabled(s, step) && !Builds(step)
    ensures ContentInv(Apply(s, step))
  {
    hide HasOwner, Enabled, Apply, AgreeUpTo, ContentInv;
    var t := Apply(s, step);
    if Frees(step) {
      FreeingFacts(s, step);
    } else if Swaps(step) {
      SwappingFacts(s, step);
    } else {
      ReadingFacts(s, step);
    }
    assert forall c :: c in s.calls && s.calls[c].Building? ==> Owned(s.calls[c]) == Some(s.calls[c].set_);
    SameContent(s, t);
  }

  lemma ContentKept(s: State, step: Step)
    requires OwnershipInv(s) && ContentInv(s) && Enabled(s, step)
    ensures ContentInv(Apply(s, step))
  {
    hide OwnershipInv, ContentInv, Apply, Enabled;
    if step.Allocate? {
      ContentKeptByAllocating(s, step);
    } else if step.Fill? {
      ContentKeptByFilling(s, step);
    } else if step.Built? || step.StartExit? {
      ContentKeptByFinishing(s, step);
    } else {
      ContentKeptOtherwise(s, step);
    }
  }

  lemma ProtectionKept(s: State, step: Step, r: nat, id: Id)
    requires MutexInv(s) && Enabled(s, step) && Protected(s, r, id) && Open(s, r)
    ensures Protected(Apply(s, step), r, id)
  {
    var t := Apply(s, step);
    if s.live == Some(id) {
      assert step.Assign? ==> Retiring(t.calls[step.call]) && t.calls[step.call].old_ == Some(id);
    } else {
      var c :| c in s.calls && Retiring(s.calls[c]) && s.calls[c].old_ == Some(id)
               && (s.calls[c].Waiting? ==> r in s.calls[c].blockers);
      assert c in t.calls && Retiring(t.calls[c]) && t.calls[c].old_ == Some(id);
    }
  }

  lemma SectionKept(s: State, step: Step, r: nat)
    requires Inv(s) && Enabled(s, step) && r in Apply(s, step).sections
    ensures SectionInv(Apply(s, step), r, Apply(s, step).sections[r])
  {
    hide MutexInv, OwnershipInv, ContentInv, AgreeUpTo, CopyPart, Protected;
    var t := Apply(s, step);
    if r in s.sections {
      assert SectionInv(s, r, s.sections[r]);
      if s.sections[r].Holding? && s.sections[r].ptr.Some? {
        ProtectionKept(s, step, r, s.sections[r].ptr.value);
        HeldSetsAreComplete(s, r);
        var h := s.sections[r];
        if h.k < PARTS {
          AgreeNext(h.scratch, s.goal[h.ptr.value], h.k);
        } else {
          AgreeEnds(h.scratch, s.goal[h.ptr.value]);
        }
      } else if step.Dereference? && step.section == r && s.live.Some? {
        LiveSetIsComplete(s);
        LiveIsProtected(t, r);
        AgreeEnds(step.blank, s.goal[s.live.value]);
      }
    }
  }

  lemma LiveIsProtected(s: State, r: nat)
    requires s.live.Some?
    ensures Protected(s, r, s.live.value)
  {
  }

  lemma NoFault(s: State, step: Step)
    requires Inv(s) && Enabled(s, step)
    ensures !Apply(s, step).fault
  {
    if step.ReadPart? {
      HeldSetsAreComplete(s, step.section);
    }
  }

  /** Every step keeps the invariant. */
  lemma InvKept(s: State, step: Step)
    requires Inv(s) && Enabled(s, step)
    ensures Inv(Apply(s, step))
  {
    hide MutexInv, OwnershipInv, ContentInv, SectionInv, Apply, Enabled;
    MutexKept(s, step);
    OwnershipKept(s, step);
    ContentKept(s, step);
    NoFault(s, step);
    forall r | r in Apply(s, step).sections ensures SectionInv(Apply(s, step), r, Apply(s, step).sections[r]) {
      SectionKept(s, step, r);
    }
  }

  // --------------------------------------------------------------------- runs

  /** A run: states linked by enabled steps, from the module's initial state. */
  ghost predicate Run(states: seq<State>, steps: seq<Step>) {
    && |states| == |steps| + 1 && states[0] == INITIAL
    && forall i :: 0 <= i < |steps| ==> Enabled(states[i], steps[i]) && states[i + 1] == Apply(states[i], steps[i])
  }

  lemma {:induction false} RunInv(states: seq<State>, steps: seq<Step>, i: nat)
    requires Run(states, steps) && i < |states|
    ensures Inv(states[i])
  {
    hide Apply, Enabled;
    if i == 0 {
      InitialInv();
    } else {
      RunInv(states, steps, i - 1);
      hide Inv;
      InvKept(states[i - 1], steps[i - 1]);
    }
  }

  lemma InitialInv()
    ensures Inv(INITIAL)
  {
  }

  /** Every set ever allocated, by its id. */
  ghost predicate Accounted(s: State) {
    forall id :: id in s.goal ==> id in s.heap || id in s.freed
  }

  lemma AccountKept(s: State, step: Step)
    requires OwnershipInv(s) && ContentInv(s) && Enabled(s, step) && Accounted(s)
    ensures Accounted(Apply(s, step))
  {
    hide Apply, Enabled, OwnershipInv, ContentInv;
    if Builds(step) {
      BuildingFacts(s, step);
    } else if Frees(step) {
      FreeingFacts(s, step);
      var t := Apply(s, step);
      assert forall j :: 0 <= j < |s.freed| ==> t.freed[j] == s.freed[j];
    } else if Swaps(step) {
      SwappingFacts(s, step);
    } else {
      ReadingFacts(s, step);
    }
  }

  lemma {:induction false} RunAccounted(states: seq<State>, steps: seq<Step>, i: nat)
    requires Run(states, steps) && i < |states|
    ensures Accounted(states[i])
  {
    hide Apply, Enabled, OwnershipInv, ContentInv, Accounted;
    if i > 0 {
      RunAccounted(states, steps, i - 1);
      RunInv(states, steps, i - 1);
      AccountKept(states[i - 1], steps[i - 1]);
    } else {
      InitiallyAccounted();
    }
  }

  lemma InitiallyAccounted()
    ensures Accounted(INITIAL)
  {
  }

  /** Safety of every run: no freed set is read or freed again, nothing is freed twice,
      every set ever allocated is in the heap or freed, and one in the heap is live or
      owned by exactly one call. */
  lemma NothingFreedTwiceOrLost(states: seq<State>, steps: seq<Step>, i: nat)
    requires Run(states, steps) && i < |states|
    ensures var s := states[i];
            && !s.fault
            && (forall j, k :: 0 <= j < k < |s.freed| ==> s.freed[j] != s.freed[k])
            && (forall j :: 0 <= j < |s.freed| ==> s.freed[j] !in s.heap)
            && (forall id :: id in s.goal ==> id in s.heap || id in s.freed)
            && (forall id :: id in s.heap ==> HasOwner(s, id))
            && (s.calls == map[] ==> forall id :: id in s.heap <==> s.live == Some(id))
    ensures var s := states[i];
            && (forall c, d :: c in s.calls && d in s.calls && Owned(s.calls[c]).Some? ==>
                  Owned(s.calls[c]) == Owned(s.calls[d]) ==> c == d)
            && (forall c :: c in s.calls && Owned(s.calls[c]).Some? ==> Owned(s.calls[c]) != s.live)
    ensures forall j: nat, c, id, garbage, goal ::
              j < i && steps[j] == Allocate(c, id, garbage, goal) ==> id in states[i].goal
  {
    RunInv(states, steps, i);
    RunAccounted(states, steps, i);
    forall j: nat, c, id, garbage, goal | j < i && steps[j] == Allocate(c, id, garbage, goal)
      ensures id in states[i].goal
    {
      GoalStays(states, steps, j + 1, i, id);
    }
  }

  /** What was allocated stays on record. */
  lemma {:induction false} GoalStays(states: seq<State>, steps: seq<Step>, i: nat, j: nat, id: Id)
    requires Run(states, steps) && 0 < i <= j < |states|
    requires steps[i - 1].Allocate? && steps[i - 1].id == id
    ensures id in states[j].goal
    decreases j
  {
    hide Apply, Enabled;
    if i < j {
      GoalStays(states, steps, i, j - 1, id);
    }
    GoalRecorded(states[j - 1], steps[j - 1], id);
  }

  lemma GoalRecorded(s: State, step: Step, id: Id)
    requires Enabled(s, step) && (id in s.goal || (step.Allocate? && step.id == id))
    ensures id in Apply(s, step).goal
  {
  }

  /** A reader's verdict comes from one complete set, the one that was live when
      it dereferenced the pointer; with no live set it answers false. */
  lemma VerdictFromOneLiveSet(states: seq<State>, steps: seq<Step>, i: nat, j: nat, r: nat)
    requires Run(states, steps) && i <= j < |states| && i < |steps|
    requires steps[i].Dereference? && steps[i].section == r
    requires r in states[j].sections && states[j].sections[r].Left?
    ensures states[i].live.None? ==> states[j].sections[r].used.None?
    ensures states[i].live.Some? ==>
              && states[i].live.value in states[i].heap
              && states[j].sections[r].used == Some(states[i].heap[states[i].live.value])
  {
    RunInv(states, steps, i);
    RunInv(states, steps, j);
    if states[i].live.Some? {
      LiveSetIsComplete(states[i]);
    }
    assert SectionInv(states[j], r, states[j].sections[r]);
    assert i < j;
    TargetStays(states, steps, i + 1, j, r);
  }

  lemma LiveSetIsComplete(s: State)
    requires Inv(s) && s.live.Some?
    ensures s.live.value in s.heap && s.live.value in s.goal && s.heap[s.live.value] == s.goal[s.live.value]
  {
    assert forall c :: c in s.calls && s.calls[c].Building? ==> Owned(s.calls[c]) == Some(s.calls[c].set_);
  }

  ghost function TargetOf(s: State, r: nat): Option<K.Published>
    requires r in s.sections && !s.sections[r].Entered?
  {
    s.sections[r].target
  }

  lemma {:induction false} TargetStays(states: seq<State>, steps: seq<Step>, i: nat, j: nat, r: nat)
    requires Run(states, steps) && i <= j < |states|
    requires r in states[i].sections && !states[i].sections[r].Entered?
    ensures r in states[j].sections && !states[j].sections[r].Entered? && TargetOf(states[j], r) == TargetOf(states[i], r)
    decreases j - i
  {
    hide Apply, Enabled;
    if i < j {
      TargetStays(states, steps, i, j - 1, r);
      TargetKept(states[j - 1], steps[j - 1], r);
    }
  }

  lemma TargetKept(s: State, step: Step, r: nat)
    requires Enabled(s, step) && r in s.sections && !s.sections[r].Entered?
    ensures var t := Apply(s, step);
            r in t.sections && !t.sections[r].Entered? && TargetOf(t, r) == TargetOf(s, r)
  {
  }
}
