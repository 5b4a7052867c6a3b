/** The lifecycle planner, and the capture flag over whole runs of it. */
module Lifecycle {

  datatype Phase = Disabled | Stopping | Paused | Inactive | Activating | Active

  datatype Stimulus =
    | Bootstrap | Enable | Disable | Reload | Stop | Status | Check
    | NewInterface | InterfaceGone(last: bool) | AddressChange
    | CaptureSideDrift | CoreDrift | NetlinkOverrun
    | FluxTomlChanged | TemplateOrListChanged | PackagesChanged
    | SsidPause | SsidResume
    | EngineExited | CurrentGenerationFault | StaleOrDuplicateFault
    | DebounceExpired | BackoffExpired | ReadinessBackoff
    | Sighup | Sigterm
    | ActivationCommitted | ActivationFailed | EngineStopped

  datatype CommandKind =
    | IgnoreUnexpected | AttemptActivation | StopEngine | PublishInactive | ExitProcess
    | RevalidateOnly | PolicyTransaction | EngineCandidateSwitch | ReevaluateAdmission
    | AdmitAndAttach | ExcludeInterface | UpdateSelfAddresses | ReattachCaptureLocally
    | FullRedump | RegenerateThenSwitch | ReparseThenPolicy | RestartWithBackoff
    | ClearLatchOnly | RunPendingConvergence | RetryActivation | RecheckSockDiag

  datatype Stepped = Stepped(phase: Phase, commands: seq<CommandKind>)

  predicate Down(p: Phase) {
    p.Disabled? || p.Stopping?
  }

  predicate Waiting(p: Phase) {
    p.Inactive? || p.Paused?
  }

  predicate Up(p: Phase) {
    p.Activating? || p.Active?
  }

  /** The event table. */
  function Step(p: Phase, s: Stimulus): Stepped {
    match s
    case Status => Stepped(p, [])
    case Check => Stepped(p, [])
    case Bootstrap =>
      if Down(p) then Stepped(p, [])
      else if Waiting(p) then Stepped(p, [AttemptActivation])
      else Stepped(p, [IgnoreUnexpected])
    case Enable => if p.Disabled? then Stepped(Inactive, [AttemptActivation]) else Stepped(p, [])
    case Disable =>
      if Down(p) then Stepped(p, [])
      else if p.Active? then Stepped(Stopping, [PublishInactive, StopEngine])
      else Stepped(Stopping, [StopEngine])
    case Reload => OnReload(p)
    case Sighup => OnReload(p)
    case Stop => OnStop(p)
    case Sigterm => OnStop(p)
    case NewInterface =>
      if Waiting(p) then Stepped(p, [ReevaluateAdmission])
      else if p.Active? then Stepped(p, [AdmitAndAttach])
      else Stepped(p, [])
    case InterfaceGone(last) =>
      if Waiting(p) then Stepped(p, [ReevaluateAdmission])
      else if !p.Active? then Stepped(p, [])
      else if last then Stepped(Inactive, [PublishInactive, ExcludeInterface])
      else Stepped(p, [ExcludeInterface])
    case AddressChange => if Down(p) then Stepped(p, []) else Stepped(p, [UpdateSelfAddresses])
    case CaptureSideDrift =>
      if Down(p) then Stepped(p, [])
      else Stepped(p, [if p.Active? then ReattachCaptureLocally else RunPendingConvergence])
    case CoreDrift =>
      if Down(p) then Stepped(p, [])
      else if p.Active? then Stepped(Activating, [PublishInactive, RunPendingConvergence])
      else Stepped(p, [RunPendingConvergence])
    case NetlinkOverrun => if Down(p) then Stepped(p, []) else Stepped(p, [FullRedump])
    case FluxTomlChanged => OnFile(p, PolicyTransaction)
    case TemplateOrListChanged => OnFile(p, RegenerateThenSwitch)
    case PackagesChanged =>
      if Down(p) || p.Activating? then Stepped(p, []) else Stepped(p, [ReparseThenPolicy])
    case SsidPause =>
      if Down(p) then Stepped(p, [])
      else if Waiting(p) then Stepped(Paused, [])
      else Stepped(Paused, [PublishInactive, StopEngine])
    case SsidResume => if p.Paused? then Stepped(Inactive, [AttemptActivation]) else Stepped(p, [])
    case EngineExited =>
      if p.Disabled? then Stepped(p, [IgnoreUnexpected])
      else if p.Stopping? then Stepped(Disabled, [])
      else if Waiting(p) then Stepped(p, [RestartWithBackoff])
      else Stepped(Inactive, [PublishInactive, RestartWithBackoff])
    case CurrentGenerationFault =>
      if p.Disabled? then Stepped(p, [IgnoreUnexpected])
      else if Up(p) then Stepped(Inactive, [PublishInactive, RestartWithBackoff])
      else Stepped(p, [ClearLatchOnly])
    case StaleOrDuplicateFault => Stepped(p, [ClearLatchOnly])
    case DebounceExpired => if Down(p) then Stepped(p, []) else Stepped(p, [RunPendingConvergence])
    case BackoffExpired => if Down(p) then Stepped(p, []) else Stepped(p, [RetryActivation])
    case ReadinessBackoff => if Down(p) then Stepped(p, []) else Stepped(p, [RecheckSockDiag])
    case ActivationCommitted => if p.Activating? then Stepped(Active, []) else Stepped(p, [IgnoreUnexpected])
    case ActivationFailed =>
      if p.Activating? then Stepped(Inactive, [PublishInactive]) else Stepped(p, [IgnoreUnexpected])
    case EngineStopped => if p.Stopping? then Stepped(Disabled, []) else Stepped(p, [IgnoreUnexpected])
  }

  function OnReload(p: Phase): Stepped {
    if Down(p) then Stepped(p, [RevalidateOnly])
    else if Waiting(p) then Stepped(p, [AttemptActivation])
    else if p.Activating? then Stepped(p, [])
    else Stepped(p, [PolicyTransaction, EngineCandidateSwitch])
  }

  function OnStop(p: Phase): Stepped {
    if Down(p) then Stepped(p, [ExitProcess])
    else Stepped(Stopping, [PublishInactive, StopEngine, ExitProcess])
  }

  function OnFile(p: Phase, live: CommandKind): Stepped {
    if Down(p) then Stepped(p, [RevalidateOnly])
    else if Waiting(p) then Stepped(p, [AttemptActivation])
    else if p.Activating? then Stepped(p, [])
    else Stepped(p, [live])
  }

  // --------------------------------------------------------------------- plan

  const U64_MAX: nat := 0xFFFF_FFFF_FFFF_FFFF

  datatype Command = Command(id: nat, kind: CommandKind)

  datatype Model = Model(phase: Phase, nextId: nat)

  /** The id after n more commands, saturating. */
  function IdAfter(id: nat, n: nat): nat {
    if id + n > U64_MAX then U64_MAX else id + n
  }

  function Numbered(id: nat, kinds: seq<CommandKind>): (r: seq<Command>)
    ensures |r| == |kinds|
  {
    seq(|kinds|, i requires 0 <= i < |kinds| => Command(IdAfter(id, i), kinds[i]))
  }

  /** plan: numbers the commands one by one. */
  method Plan(model: Model, stimulus: Stimulus) returns (next: Model, commands: seq<Command>)
    requires model.nextId <= U64_MAX
    ensures next == Model(Step(model.phase, stimulus).phase,
                          IdAfter(model.nextId, |Step(model.phase, stimulus).commands|))
    ensures commands == Numbered(model.nextId, Step(model.phase, stimulus).commands)
  {
    hide Step;
    var stepped := Step(model.phase, stimulus);
    next := model.(phase := stepped.phase);
    commands := [];
    for i := 0 to |stepped.commands|
      invariant next == Model(stepped.phase, IdAfter(model.nextId, i))
      invariant commands == Numbered(model.nextId, stepped.commands[..i])
    {
      var id := next.nextId;
      next := next.(nextId := if id == U64_MAX then U64_MAX else id + 1);
      commands := commands + [Command(id, stepped.commands[i])];
    }
    assert stepped.commands[..|stepped.commands|] == stepped.commands;
  }

  datatype Observation = Observation(
    disablePresent: bool,
    shutdown: bool,
    ssidPaused: bool,
    enginePresent: bool,
    dataplaneActive: bool,
    awaitingCommit: bool,
    convergenceBusy: bool)

  function Observe(o: Observation): Phase {
    if o.disablePresent || o.shutdown then
      if o.enginePresent || o.convergenceBusy then Stopping else Disabled
    else if o.ssidPaused then Paused
    else if o.dataplaneActive && o.enginePresent && !o.awaitingCommit then Active
    else if o.enginePresent || o.awaitingCommit || o.convergenceBusy then Activating
    else Inactive
  }

  // --------------------------------------------------------------------- runs

  datatype Event = Stimulated(stimulus: Stimulus) | Observed(observation: Observation)

  /** The planner and the capture flag of the control leaf. */
  datatype World = World(model: Model, capture: bool)

  /** The flag before the commands of a stimulus run: Phase 6 has just published it
      when ActivationCommitted is taken in Activating. */
  function Raised(w: World, s: Stimulus): bool {
    w.capture || (s.ActivationCommitted? && w.model.phase.Activating?)
  }

  /** The flag when the k-th command runs. */
  function FlagAt(flag: bool, kinds: seq<CommandKind>, k: nat): bool
    requires k <= |kinds|
  {
    flag && PublishInactive !in kinds[..k]
  }

  /** Nothing asks for a shutdown or a pause, and the engine and an already committed
      data plane are there. */
  predicate SeesActive(o: Observation) {
    && !o.disablePresent && !o.shutdown && !o.ssidPaused
    && o.dataplaneActive && o.enginePresent && !o.awaitingCommit
  }

  /** A re-observation under a set flag finds the data plane as the flag left it. */
  predicate Enabled(w: World, e: Event) {
    match e
    case Stimulated(_) => true
    case Observed(o) => w.capture ==> SeesActive(o)
  }

  function KindsOf(w: World, e: Event): seq<CommandKind> {
    if e.Stimulated? then Step(w.model.phase, e.stimulus).commands else []
  }

  function Apply(w: World, e: Event): World {
    match e
    case Stimulated(s) =>
      var stepped := Step(w.model.phase, s);
      World(Model(stepped.phase, IdAfter(w.model.nextId, |stepped.commands|)),
            FlagAt(Raised(w, s), stepped.commands, |stepped.commands|))
    case Observed(o) => w.(model := w.model.(phase := Observe(o)))
  }

  function After(phase: Phase, events: seq<Event>): World {
    if events == [] then World(Model(phase, 1), false)
    else Apply(After(phase, events[..|events| - 1]), events[|events| - 1])
  }

  /** Every event of the run was enabled when it happened. */
  ghost predicate Run(phase: Phase, events: seq<Event>) {
    forall i :: 0 <= i < |events| ==> Enabled(After(phase, events[..i]), events[i])
  }

  predicate Dangerous(kind: CommandKind) {
    kind.StopEngine? || kind.RestartWithBackoff? || kind.ExitProcess?
  }

  ghost predicate CaptureInv(w: World) {
    w.capture ==> w.model.phase == Active
  }

  lemma CaptureKept(w: World, e: Event)
    requires CaptureInv(w) && Enabled(w, e)
    ensures CaptureInv(Apply(w, e))
  {
    if e.Stimulated? {
      var kinds := Step(w.model.phase, e.stimulus).commands;
      assert kinds[..|kinds|] == kinds;
      if w.model.phase.Active? && !Step(w.model.phase, e.stimulus).phase.Active? {
        LeavingActiveFreezes(w.model.phase, e.stimulus);
      }
    }
  }

  /** Read off the table for CaptureKept: leaving Active publishes inactive first. */
  lemma LeavingActiveFreezes(p: Phase, s: Stimulus)
    requires p.Active? && !Step(p, s).phase.Active?
    ensures var kinds := Step(p, s).commands; kinds != [] && kinds[0] == PublishInactive
  {
  }

  /** In the event table nothing dangerous comes before the freeze, unless the
      phase says that nothing is captured. */
  lemma DangerComesLater(p: Phase, s: Stimulus, k: nat)
    requires k < |Step(p, s).commands| && Dangerous(Step(p, s).commands[k])
    ensures p.Active? ==> k > 0 && Step(p, s).commands[0] == PublishInactive
    ensures !s.ActivationCommitted?
  {
  }

  lemma {:induction false} FlagOnlyInActive(phase: Phase, events: seq<Event>)
    requires Run(phase, events)
    ensures CaptureInv(After(phase, events))
  {
    if events != [] {
      var front := events[..|events| - 1];
      forall i | 0 <= i < |front| ensures Enabled(After(phase, front[..i]), front[i]) {
        assert front[..i] == events[..i];
      }
      FlagOnlyInActive(phase, front);
      hide CaptureInv;
      CaptureKept(After(phase, front), events[|events| - 1]);
    }
  }

  /** The k-th command of a stimulus is dangerous and runs with the flag set. */
  predicate Exposed(w: World, s: Stimulus, k: nat) {
    && k < |Step(w.model.phase, s).commands| && Dangerous(Step(w.model.phase, s).commands[k])
    && FlagAt(Raised(w, s), Step(w.model.phase, s).commands, k)
  }

  lemma NotExposed(w: World, s: Stimulus, k: nat)
    requires CaptureInv(w)
    ensures !Exposed(w, s, k)
  {
    hide Step;
    var kinds := Step(w.model.phase, s).commands;
    if k < |kinds| && Dangerous(kinds[k]) {
      DangerComesLater(w.model.phase, s, k);
      assert w.model.phase.Active? ==> kinds[..k][0] == PublishInactive;
    }
  }

  /** Over every run, the engine is never stopped or restarted and the process never
      exits while the capture flag is set. */
  lemma NothingStopsUnderCapture(phase: Phase, events: seq<Event>, i: nat, k: nat)
    requires Run(phase, events) && i < |events| && events[i].Stimulated?
    ensures !Exposed(After(phase, events[..i]), events[i].stimulus, k)
    ensures After(phase, events[..i]).capture ==> After(phase, events[..i]).model.phase == Active
  {
    hide Step, After;
    assert Run(phase, events[..i]) by {
      forall j | 0 <= j < i ensures Enabled(After(phase, events[..i][..j]), events[..i][j]) {
        assert events[..i][..j] == events[..j];
      }
    }
    FlagOnlyInActive(phase, events[..i]);
    NotExposed(After(phase, events[..i]), events[i].stimulus, k);
  }

  /** With the flag set, an observation is safe exactly when it sees Active. */
  lemma SafeObservation(w: World, o: Observation)
    requires w.capture
    ensures SeesActive(o) <==> forall s: Stimulus, k: nat :: !Exposed(Apply(w, Observed(o)), s, k)
  {
    hide Exposed;
    var v := Apply(w, Observed(o));
    if SeesActive(o) {
      forall s: Stimulus, k: nat ensures !Exposed(v, s, k) {
        NotExposed(v, s, k);
      }
    } else {
      DangerAtOnce(v);
    }
  }

  /** An engine coming up and a commit set the flag, from any starting phase. */
  lemma CaptureIsReached(phase: Phase) returns (events: seq<Event>)
    ensures Run(phase, events) && After(phase, events) == World(Model(Active, 1), true)
  {
    var up := Observed(Observation(false, false, false, true, false, false, false));
    events := [up, Stimulated(ActivationCommitted)];
    assert events[..0] == [] && events[..1] == [up] && events[..1][..0] == [];
    assert After(phase, []) == World(Model(phase, 1), false);
    assert After(phase, [up]) == Apply(After(phase, []), up) == World(Model(Activating, 1), false);
    assert After(phase, events) == Apply(After(phase, events[..1]), events[1]);
  }

  /** The hypothesis on re-observation cannot be weakened: an observation is safe after
      every run that set the flag exactly when it sees Active; after any other one the
      very next stimulus may stop the engine, or exit, under capture. */
  lemma ObservationHypothesisIsExact(phase: Phase, o: Observation)
    ensures SeesActive(o) <==>
            forall events, s: Stimulus, k: nat :: Run(phase, events) && After(phase, events).capture ==>
              !Exposed(Apply(After(phase, events), Observed(o)), s, k)
  {
    hide Exposed, Apply, Run, After, SeesActive;
    if SeesActive(o) {
      forall events, s: Stimulus, k: nat | Run(phase, events) && After(phase, events).capture
        ensures !Exposed(Apply(After(phase, events), Observed(o)), s, k)
      {
        SafeObservation(After(phase, events), o);
      }
    } else {
      var events := CaptureIsReached(phase);
      SafeObservation(After(phase, events), o);
    }
  }

  lemma DangerAtOnce(v: World)
    requires v.capture && !v.model.phase.Active?
    ensures exists s: Stimulus :: Exposed(v, s, 0)
  {
    var s := if Down(v.model.phase) then Stop else Disable;
    assert Exposed(v, s, 0);
  }

  /** All commands of a run, in order. */
  function Issued(phase: Phase, events: seq<Event>): seq<Command> {
    if events == [] then []
    else
      var before := After(phase, events[..|events| - 1]);
      Issued(phase, events[..|events| - 1]) + Numbered(before.model.nextId, KindsOf(before, events[|events| - 1]))
  }

  /** Ids count up from one across the whole run, until they saturate: below that
      no two commands share one. */
  lemma {:induction false} IdsCountUp(phase: Phase, events: seq<Event>, k: nat)
    ensures After(phase, events).model.nextId == IdAfter(1, |Issued(phase, events)|)
    ensures k < |Issued(phase, events)| ==> Issued(phase, events)[k].id == IdAfter(1, k)
  {
    hide Step;
    if events != [] {
      IdsCountUp(phase, events[..|events| - 1], k);
    }
  }

  /** Drift on the capture side, and what the table does not expect. */
  predicate Noise(w: World, e: Event) {
    e.Stimulated? && (e.stimulus.CaptureSideDrift? || IgnoreUnexpected in KindsOf(w, e))
  }

  /** The events of a run that are not noise where they happen. */
  function Essential(phase: Phase, events: seq<Event>): seq<Event> {
    if events == [] then []
    else
      var front, last := events[..|events| - 1], events[|events| - 1];
      if Noise(After(phase, front), last) then Essential(phase, front) else Essential(phase, front) + [last]
  }

  lemma NoiseChangesNothing(w: World, e: Event)
    requires Noise(w, e)
    ensures Apply(w, e).model.phase == w.model.phase && Apply(w, e).capture == w.capture
  {
    TableInvariants(w.model.phase, e.stimulus);
    hide Step;
    var kinds := KindsOf(w, e);
    assert kinds[..|kinds|] == kinds;
  }

  lemma TableInvariants(p: Phase, s: Stimulus)
    ensures s.CaptureSideDrift? ==> PublishInactive !in Step(p, s).commands && Step(p, s).phase == p
    ensures IgnoreUnexpected in Step(p, s).commands ==> Step(p, s) == Stepped(p, [IgnoreUnexpected])
    ensures s.ActivationCommitted? && p.Activating? ==> Step(p, s) == Stepped(Active, [])
  {
  }

  /** Phase and flag say all that matters for the next ones. */
  lemma SameSituation(w: World, v: World, e: Event)
    requires w.model.phase == v.model.phase && w.capture == v.capture
    ensures Apply(w, e).model.phase == Apply(v, e).model.phase && Apply(w, e).capture == Apply(v, e).capture
    ensures Enabled(w, e) <==> Enabled(v, e)
  {
    hide Step;
  }

  /** Noise never matters: leaving every such event out of a run leaves a run, which ends
      in the same phase with the same flag. */
  lemma {:induction false} NoiseDoesNotMatter(phase: Phase, events: seq<Event>)
    requires Run(phase, events)
    ensures var kept := Essential(phase, events);
            && Run(phase, kept) && After(phase, kept).model.phase == After(phase, events).model.phase
            && After(phase, kept).capture == After(phase, events).capture
  {
    hide Noise, Apply, Enabled;
    if events != [] {
      var front, last := events[..|events| - 1], events[|events| - 1];
      RunFront(phase, events);
      NoiseDoesNotMatter(phase, front);
      var w, v := After(phase, front), After(phase, Essential(phase, front));
      if Noise(w, last) {
        NoiseChangesNothing(w, last);
      } else {
        SameSituation(w, v, last);
        RunLonger(phase, Essential(phase, front), last);
      }
    }
  }

  lemma RunFront(phase: Phase, events: seq<Event>)
    requires Run(phase, events) && events != []
    ensures Run(phase, events[..|events| - 1])
    ensures Enabled(After(phase, events[..|events| - 1]), events[|events| - 1])
  {
    hide After, Enabled;
    var front := events[..|events| - 1];
    forall i | 0 <= i < |front| ensures Enabled(After(phase, front[..i]), front[i]) {
      assert front[..i] == events[..i];
    }
  }

  lemma RunLonger(phase: Phase, events: seq<Event>, e: Event)
    requires Run(phase, events) && Enabled(After(phase, events), e)
    ensures Run(phase, events + [e]) && After(phase, events + [e]) == Apply(After(phase, events), e)
  {
    var more := events + [e];
    assert more[..|events|] == events;
    hide After, Enabled, Apply;
    forall i | 0 <= i < |more| ensures Enabled(After(phase, more[..i]), more[i]) {
      if i < |events| {
        assert more[..i] == events[..i];
      }
    }
  }

  /** The ways into the two phases in which an engine is up. */
  predicate Enters(w: World, e: Event, up: Phase) {
    match (up, e)
    case (Active, Stimulated(s)) => w.model.phase.Activating? && s.ActivationCommitted?
    case (Active, Observed(o)) => SeesActive(o)
    case (Activating, Stimulated(s)) => w.model.phase.Active? && s.CoreDrift?
    case (Activating, Observed(o)) => !SeesActive(o) && (o.enginePresent || o.awaitingCommit || o.convergenceBusy)
    case _ => true
  }

  lemma EntryStep(w: World, e: Event, up: Phase)
    requires Up(up) && w.model.phase != up && Apply(w, e).model.phase == up
    ensures Enters(w, e, up)
  {
    if e.Stimulated? {
      MovedExactly(w.model.phase, e.stimulus, up);
      hide Step;
    }
  }

  lemma AfterLast(phase: Phase, events: seq<Event>)
    ensures After(phase, []) == World(Model(phase, 1), false)
    ensures events != [] ==>
              After(phase, events) == Apply(After(phase, events[..|events| - 1]), events[|events| - 1])
  {
  }

  /** A run that ends in Active or Activating, and did not start there, has entered it by
      one of these and stayed ever since. */
  lemma {:induction false} UpHasAnEntry(phase: Phase, events: seq<Event>, up: Phase)
    requires Up(up) && phase != up && After(phase, events).model.phase == up
    ensures exists k: nat ::
              && k < |events| && Enters(After(phase, events[..k]), events[k], up)
              && forall j :: k < j <= |events| ==> After(phase, events[..j]).model.phase == up
  {
    hide After, Enters, Apply;
    AfterLast(phase, events);
    var n := |events|;
    var front := events[..n - 1];
    assert events[..n] == events;
    if After(phase, front).model.phase == up {
      UpHasAnEntry(phase, front, up);
      var k: nat :| && k < n - 1 && Enters(After(phase, front[..k]), front[k], up)
                    && forall j :: k < j <= n - 1 ==> After(phase, front[..j]).model.phase == up;
      assert front[..k] == events[..k];
      forall j | k < j <= n ensures After(phase, events[..j]).model.phase == up {
        assert j < n ==> front[..j] == events[..j];
      }
    } else {
      EntryStep(After(phase, front), events[n - 1], up);
    }
  }

  /** While the flag is set, the commit that set it is in the run, and ever since the phase
      has been Active and nothing was frozen. */
  lemma {:induction false} FlagSinceCommit(phase: Phase, events: seq<Event>)
    requires Run(phase, events) && After(phase, events).capture
    ensures exists k: nat ::
              && k < |events| && events[k] == Stimulated(ActivationCommitted)
              && After(phase, events[..k]).model.phase.Activating?
              && forall j :: k < j < |events| ==> SteadyAt(phase, events, j)
  {
    hide After, Apply, Run, SteadyAt;
    AfterLast(phase, events);
    var n := |events|;
    RunFront(phase, events);
    var front := events[..n - 1];
    if After(phase, front).capture {
      FlagSinceCommit(phase, front);
      var k: nat :| && k < n - 1 && front[k] == Stimulated(ActivationCommitted)
                    && After(phase, front[..k]).model.phase.Activating?
                    && forall j :: k < j < n - 1 ==> SteadyAt(phase, front, j);
      assert front[..k] == events[..k];
      FlagOnlyInActive(phase, front);
      FlagStays(After(phase, front), events[n - 1]);
      forall j | k < j < n ensures SteadyAt(phase, events, j) {
        SteadyInFront(phase, events, j);
      }
    } else {
      CommitStep(After(phase, front), events[n - 1]);
    }
  }

  lemma SteadyInFront(phase: Phase, events: seq<Event>, j: nat)
    requires j < |events|
    requires j < |events| - 1 ==> SteadyAt(phase, events[..|events| - 1], j)
    requires j == |events| - 1 ==>
               var w := After(phase, events[..j]);
               w.capture && w.model.phase.Active? && PublishInactive !in KindsOf(w, events[j])
    ensures SteadyAt(phase, events, j)
  {
    hide After, KindsOf;
    assert j < |events| - 1 ==> events[..|events| - 1][..j] == events[..j];
  }

  lemma CommitStep(w: World, e: Event)
    requires Apply(w, e).capture && !w.capture
    ensures e == Stimulated(ActivationCommitted) && w.model.phase.Activating?
  {
    hide Step;
  }

  /** Event j finds the flag set in Active, and freezes nothing. */
  ghost predicate SteadyAt(phase: Phase, events: seq<Event>, j: nat) {
    && j < |events| && After(phase, events[..j]).capture && After(phase, events[..j]).model.phase.Active?
    && PublishInactive !in KindsOf(After(phase, events[..j]), events[j])
  }

  lemma FlagStays(w: World, e: Event)
    requires Apply(w, e).capture && w.capture
    ensures PublishInactive !in KindsOf(w, e)
  {
    hide Step;
    var kinds := KindsOf(w, e);
    assert kinds[..|kinds|] == kinds;
  }

  // ------------------------------------------------------ the table, read backwards

  /** What makes the planner issue a command, command by command. */
  predicate Issues(kind: CommandKind, p: Phase, s: Stimulus) {
    match kind
    case IgnoreUnexpected =>
      || (s.Bootstrap? && Up(p)) || (p.Disabled? && (s.EngineExited? || s.CurrentGenerationFault?))
      || (!p.Activating? && (s.ActivationCommitted? || s.ActivationFailed?)) || (s.EngineStopped? && !p.Stopping?)
    case AttemptActivation =>
      || (s.Enable? && p.Disabled?) || (s.SsidResume? && p.Paused?)
      || (Waiting(p) && (s.Bootstrap? || s.Reload? || s.Sighup? || s.FluxTomlChanged? || s.TemplateOrListChanged?))
    case StopEngine =>
      || (!Down(p) && (s.Disable? || s.Stop? || s.Sigterm?)) || (Up(p) && s.SsidPause?)
    case PublishInactive =>
      || (p.Active? && (s.Disable? || (s.InterfaceGone? && s.last) || s.CoreDrift?))
      || (!Down(p) && (s.Stop? || s.Sigterm?))
      || (Up(p) && (s.SsidPause? || s.EngineExited? || s.CurrentGenerationFault?))
      || (p.Activating? && s.ActivationFailed?)
    case ExitProcess => s.Stop? || s.Sigterm?
    case RevalidateOnly =>
      Down(p) && (s.Reload? || s.Sighup? || s.FluxTomlChanged? || s.TemplateOrListChanged?)
    case PolicyTransaction => p.Active? && (s.Reload? || s.Sighup? || s.FluxTomlChanged?)
    case EngineCandidateSwitch => p.Active? && (s.Reload? || s.Sighup?)
    case ReevaluateAdmission => Waiting(p) && (s.NewInterface? || s.InterfaceGone?)
    case AdmitAndAttach => p.Active? && s.NewInterface?
    case ExcludeInterface => p.Active? && s.InterfaceGone?
    case UpdateSelfAddresses => !Down(p) && s.AddressChange?
    case ReattachCaptureLocally => p.Active? && s.CaptureSideDrift?
    case FullRedump => !Down(p) && s.NetlinkOverrun?
    case RegenerateThenSwitch => p.Active? && s.TemplateOrListChanged?
    case ReparseThenPolicy => (p.Active? || Waiting(p)) && s.PackagesChanged?
    case RestartWithBackoff =>
      || (s.EngineExited? && !Down(p)) || (s.CurrentGenerationFault? && Up(p))
    case ClearLatchOnly =>
      s.StaleOrDuplicateFault? || (s.CurrentGenerationFault? && (Waiting(p) || p.Stopping?))
    case RunPendingConvergence =>
      !Down(p) && (s.CoreDrift? || s.DebounceExpired? || (s.CaptureSideDrift? && !p.Active?))
    case RetryActivation => !Down(p) && s.BackoffExpired?
    case RecheckSockDiag => !Down(p) && s.ReadinessBackoff?
  }

  lemma IssuedOnStart(p: Phase, s: Stimulus, kind: CommandKind)
    requires s.Bootstrap? || s.Enable? || s.SsidResume?
    ensures kind in Step(p, s).commands <==> Issues(kind, p, s)
  {
  }

  lemma IssuedOnHalt(p: Phase, s: Stimulus, kind: CommandKind)
    requires s.Disable? || s.Stop? || s.Sigterm? || s.SsidPause?
    ensures kind in Step(p, s).commands <==> Issues(kind, p, s)
  {
  }

  lemma IssuedOnReload(p: Phase, s: Stimulus, kind: CommandKind)
    requires s.Reload? || s.Sighup? || s.Status? || s.Check?
    ensures kind in Step(p, s).commands <==> Issues(kind, p, s)
  {
  }

  lemma IssuedOnFile(p: Phase, s: Stimulus, kind: CommandKind)
    requires s.FluxTomlChanged? || s.TemplateOrListChanged? || s.PackagesChanged?
    ensures kind in Step(p, s).commands <==> Issues(kind, p, s)
  {
  }

  lemma IssuedOnLink(p: Phase, s: Stimulus, kind: CommandKind)
    requires s.NewInterface? || s.InterfaceGone? || s.AddressChange?
    ensures kind in Step(p, s).commands <==> Issues(kind, p, s)
  {
  }

  lemma IssuedOnDrift(p: Phase, s: Stimulus, kind: CommandKind)
    requires s.CaptureSideDrift? || s.CoreDrift? || s.NetlinkOverrun?
    ensures kind in Step(p, s).commands <==> Issues(kind, p, s)
  {
  }

  lemma IssuedOnFault(p: Phase, s: Stimulus, kind: CommandKind)
    requires s.EngineExited? || s.CurrentGenerationFault? || s.StaleOrDuplicateFault?
    ensures kind in Step(p, s).commands <==> Issues(kind, p, s)
  {
  }

  lemma IssuedOnTimer(p: Phase, s: Stimulus, kind: CommandKind)
    requires s.DebounceExpired? || s.BackoffExpired? || s.ReadinessBackoff?
    ensures kind in Step(p, s).commands <==> Issues(kind, p, s)
  {
  }

  lemma IssuedOnResult(p: Phase, s: Stimulus, kind: CommandKind)
    requires s.ActivationCommitted? || s.ActivationFailed? || s.EngineStopped?
    ensures kind in Step(p, s).commands <==> Issues(kind, p, s)
  {
  }

  /** Every command is issued exactly for its reasons. */
  lemma IssuedExactly(p: Phase, s: Stimulus, kind: CommandKind)
    ensures kind in Step(p, s).commands <==> Issues(kind, p, s)
  {
    hide Step, Issues;
    if s.Bootstrap? || s.Enable? || s.SsidResume? {
      IssuedOnStart(p, s, kind);
    } else if s.Disable? || s.Stop? || s.Sigterm? || s.SsidPause? {
      IssuedOnHalt(p, s, kind);
    } else if s.Reload? || s.Sighup? || s.Status? || s.Check? {
      IssuedOnReload(p, s, kind);
    } else if s.FluxTomlChanged? || s.TemplateOrListChanged? || s.PackagesChanged? {
      IssuedOnFile(p, s, kind);
    } else if s.NewInterface? || s.InterfaceGone? || s.AddressChange? {
      IssuedOnLink(p, s, kind);
    } else if s.CaptureSideDrift? || s.CoreDrift? || s.NetlinkOverrun? {
      IssuedOnDrift(p, s, kind);
    } else if s.EngineExited? || s.CurrentGenerationFault? || s.StaleOrDuplicateFault? {
      IssuedOnFault(p, s, kind);
    } else if s.DebounceExpired? || s.BackoffExpired? || s.ReadinessBackoff? {
      IssuedOnTimer(p, s, kind);
    } else {
      IssuedOnResult(p, s, kind);
    }
  }

  /** What moves the planner to another phase, phase by phase. */
  predicate MovesTo(p: Phase, s: Stimulus, q: Phase) {
    match q
    case Disabled => p.Stopping? && (s.EngineExited? || s.EngineStopped?)
    case Stopping => !Down(p) && (s.Disable? || s.Stop? || s.Sigterm?)
    case Paused => !Down(p) && s.SsidPause?
    case Inactive =>
      || (p.Disabled? && s.Enable?) || (p.Paused? && s.SsidResume?)
      || (p.Active? && s.InterfaceGone? && s.last) || (p.Activating? && s.ActivationFailed?)
      || (Up(p) && (s.EngineExited? || s.CurrentGenerationFault?))
    case Activating => p.Active? && s.CoreDrift?
    case Active => p.Activating? && s.ActivationCommitted?
  }

  lemma MovedExactly(p: Phase, s: Stimulus, q: Phase)
    requires q != p
    ensures Step(p, s).phase == q <==> MovesTo(p, s, q)
  {
  }

  /** And what an observation makes of it. */
  lemma ObservedExactly(o: Observation)
    ensures var off := o.disablePresent || o.shutdown; var busy := o.enginePresent || o.convergenceBusy;
            && (Observe(o) == Disabled <==> off && !busy)
            && (Observe(o) == Stopping <==> off && busy)
            && (Observe(o) == Paused <==> !off && o.ssidPaused)
            && (Observe(o) == Active <==> SeesActive(o))
            && (Observe(o) == Inactive <==> !off && !o.ssidPaused && !busy && !o.awaitingCommit)
  {
  }
}
