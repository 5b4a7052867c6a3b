/** Readers that run beside publications: the verdict of each is that of the one epoch
    whose set was live when it dereferenced the pointer. */
module ConcurrentVerdict {
  import opened Words
  import opened Wrappers
  import B = BypassEndToEnd
  import E = EpochPublish
  import K = BypassKernel
  import P = PolicyEpochs
  import R = BypassRcu

  /** The set under construction is one the module builds from the epoch's buffer. */
  ghost predicate BuiltFor(e: Endian, p: K.Published, epoch: P.PolicyEpoch) {
    P.WellFormed(epoch)
    && exists l :: E.Enumerates(l, epoch) && K.Answers(p, B.Meaning(e, E.EpochArgs(e, epoch.cidrMode, l)))
  }

  /** Every SET_BYPASS call of the run is a publication of the epoch named by its set. */
  ghost predicate PublishesEpochs(e: Endian, steps: seq<R.Step>, epochOf: R.Id -> P.PolicyEpoch) {
    forall k :: 0 <= k < |steps| && steps[k].Allocate? ==> BuiltFor(e, steps[k].goal, epochOf(steps[k].id))
  }

  lemma GoalKept(s: R.State, step: R.Step, id: R.Id)
    requires R.Enabled(s, step) && id in R.Apply(s, step).goal
    ensures var t := R.Apply(s, step);
            || (step.Allocate? && step.id == id && t.goal[id] == step.goal)
            || (id in s.goal && t.goal[id] == s.goal[id])
  {
  }

  /** What a set is meant to hold was fixed when it was allocated. */
  lemma {:induction false} GoalsAreAllocated(
    e: Endian, states: seq<R.State>, steps: seq<R.Step>, epochOf: R.Id -> P.PolicyEpoch, i: nat, id: R.Id)
    requires R.Run(states, steps) && PublishesEpochs(e, steps, epochOf) && i < |states| && id in states[i].goal
    ensures BuiltFor(e, states[i].goal[id], epochOf(id))
  {
    hide R.Apply, R.Enabled, BuiltFor;
    if i > 0 {
      GoalKept(states[i - 1], steps[i - 1], id);
      if id in states[i - 1].goal {
        GoalsAreAllocated(e, states, steps, epochOf, i - 1, id);
      }
    }
  }

  lemma BuiltServes(e: Endian, p: K.Published, epoch: P.PolicyEpoch)
    requires BuiltFor(e, p, epoch)
    ensures E.Serves(p, epoch)
  {
    hide E.Enumerates, K.Answers, B.Meaning, E.EpochArgs, P.WellFormed, E.Serves;
    var l :| E.Enumerates(l, epoch) && K.Answers(p, B.Meaning(e, E.EpochArgs(e, epoch.cidrMode, l)));
    E.AnswersServes(e, epoch, l, p);
  }

  /** Whatever publications, failures and exits run beside it, a reader that finds a live
      set answers for every destination as the epoch that was live at its dereference
      does; one that finds none reads no set. */
  lemma ReaderAnswersLiveEpoch(
    e: Endian, states: seq<R.State>, steps: seq<R.Step>, epochOf: R.Id -> P.PolicyEpoch, i: nat, j: nat, r: nat)
    requires R.Run(states, steps) && PublishesEpochs(e, steps, epochOf) && i <= j < |states| && i < |steps|
    requires steps[i].Dereference? && steps[i].section == r
    requires r in states[j].sections && states[j].sections[r].Left?
    ensures var used, live := states[j].sections[r].used, states[i].live;
            && (used.Some? <==> live.Some?)
            && (live.Some? ==> forall d, direct :: K.DirectMeans(used.value, E.PacketTo(d), direct) ==>
                  direct == P.BypassDirect(epochOf(live.value), d))
  {
    hide R.Apply, R.Enabled, BuiltFor, K.DirectMeans, P.BypassDirect;
    R.VerdictFromOneLiveSet(states, steps, i, j, r);
    if states[i].live.Some? {
      R.RunInv(states, steps, i);
      R.LiveSetIsComplete(states[i]);
      var id := states[i].live.value;
      GoalsAreAllocated(e, states, steps, epochOf, i, id);
      BuiltServes(e, states[i].goal[id], epochOf(id));
    }
  }
}
