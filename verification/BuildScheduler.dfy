/**
 The parallel build scheduler (cmd/cmd/build.go): a counting semaphore held in a buffered
 channel, a WaitGroup, an error list behind a mutex, and a context that may be cancelled at
 any moment.  A run is any sequence of enabled actions of the launching loop, of the
 goroutines and of whoever cancels, so every theorem over runs covers every interleaving.

 Appending to the error list is not one action: a thread locks, reads the list, writes back
 the extended copy and unlocks.
 */
module BuildScheduler {
  import opened Sequences
  import opened Wrappers

  datatype Failure = Cancelled(vm: nat) | Failed(vm: nat)

  /** Where a thread is inside the critical section that appends to the error list. */
  datatype Section = Want | Held | Read(snapshot: seq<Failure>) | Wrote

  /** What has happened to one VM so far. */
  datatype Stage =
    | Pending                 // the loop has not decided yet
    | Skipping(at: Section)   // the loop saw the cancellation and records it
    | Skipped
    | Granted                 // the loop put a token into the channel
    | Spawned                 // wg.Add and the go statement are done
    | Called                  // the runner has been entered
    | Passed                  // the runner's context check found no cancellation
    | Building                // runBuild is working
    | Failing(at: Section)    // the runner returned an error, to be recorded
    | Releasing(ok: bool)     // about to take the token back out of the channel
    | Finishing(ok: bool)     // about to call wg.Done
    | Ended(ok: bool)

  datatype Event = RunnerCalled(vm: nat) | RunnerReturned(vm: nat, ok: bool)

  /** `guarded` selects the runner of the build command, which checks its context first; otherwise the runner is arbitrary. */
  datatype Config = Config(parallelism: nat, guarded: bool)

  datatype State = State(
    config: Config,
    vms: seq<Stage>,
    next: nat,
    cancelled: bool,
    slots: nat,
    waiting: nat,
    mutex: Option<nat>,
    errs: seq<Failure>,
    returned: bool,
    events: seq<Event>,
    began: seq<nat>)

  datatype Action =
    | Acquire
    | SeeCancel
    | Spawn
    | Finish
    | Cancel
    | Call(vm: nat)
    | CheckFails(vm: nat)
    | CheckPasses(vm: nat)
    | Begin(vm: nat)
    | Return(vm: nat, ok: bool)
    | Lock(vm: nat)
    | ReadErrors(vm: nat)
    | WriteErrors(vm: nat)
    | Unlock(vm: nat)
    | Release(vm: nat)
    | Done(vm: nat)

  function Init(config: Config, n: nat): State {
    State(config, seq(n, _ => Pending), 0, false, 0, 0, None, [], false, [], [])
  }

  // ----- Classification of stages

  function SectionOf(stage: Stage): Option<Section> {
    match stage
    case Skipping(at) => Some(at)
    case Failing(at) => Some(at)
    case _ => None
  }

  predicate Inside(stage: Stage) {
    SectionOf(stage).Some? && !SectionOf(stage).value.Want?
  }

  predicate HoldsSlot(stage: Stage) {
    stage.Granted? || Working(stage) || stage.Spawned? || stage.Failing? || stage.Releasing?
  }

  predicate Working(stage: Stage) {
    stage.Called? || stage.Passed? || stage.Building?
  }

  predicate Awaited(stage: Stage) {
    stage.Spawned? || Working(stage) || stage.Failing? || stage.Releasing? || stage.Finishing?
  }

  function Verdict(stage: Stage): Option<bool> {
    match stage
    case Failing(_) => Some(false)
    case Releasing(ok) => Some(ok)
    case Finishing(ok) => Some(ok)
    case Ended(ok) => Some(ok)
    case _ => None
  }

  predicate Entered(stage: Stage) { Working(stage) || Verdict(stage).Some? }

  predicate FailureRecorded(stage: Stage) {
    Verdict(stage) == Some(false) && (stage.Failing? ==> stage.at.Wrote?)
  }

  predicate CancelRecorded(stage: Stage) {
    stage.Skipped? || (stage.Skipping? && stage.at.Wrote?)
  }

  predicate Recorded(stage: Stage) { FailureRecorded(stage) || CancelRecorded(stage) }

  const IsHolding: Stage -> bool := x => HoldsSlot(x)
  const IsWorking: Stage -> bool := x => Working(x)
  const IsAwaited: Stage -> bool := x => Awaited(x)
  const IsRecorded: Stage -> bool := x => Recorded(x)
  const IsFailed: Stage -> bool := x => x == Ended(false)
  const IsSkipped: Stage -> bool := (x: Stage) => x.Skipped?

  // ----- The step relation

  function Put(s: State, i: nat, stage: Stage): State
    requires i < |s.vms|
  {
    s.(vms := s.vms[i := stage])
  }

  /** The VM whose stage an action changes; none for Finish and Cancel. */
  function Subject(s: State, a: Action): Option<nat> {
    match a
    case Acquire => Some(s.next)
    case SeeCancel => Some(s.next)
    case Spawn => Some(s.next)
    case Finish => None
    case Cancel => None
    case _ => Some(a.vm)
  }

  predicate Enabled(s: State, a: Action) {
    && !s.returned
    && (Subject(s, a).Some? ==> Subject(s, a).value < |s.vms|)
    && match a {
      case Acquire => s.vms[s.next].Pending? && s.slots < s.config.parallelism
      case SeeCancel => s.vms[s.next].Pending? && s.cancelled
      case Spawn => s.vms[s.next].Granted?
      case Finish => s.next == |s.vms| && s.waiting == 0
      case Cancel => !s.cancelled
      case Call(i) => s.vms[i].Spawned?
      case CheckFails(i) => s.config.guarded && s.vms[i].Called? && s.cancelled
      case CheckPasses(i) => s.config.guarded && s.vms[i].Called? && !s.cancelled
      case Begin(i) => s.vms[i].Passed?
      case Return(i, ok) => s.vms[i].Building? || (!s.config.guarded && s.vms[i].Called?)
      case Lock(i) => SectionOf(s.vms[i]) == Some(Want) && s.mutex.None?
      case ReadErrors(i) => SectionOf(s.vms[i]) == Some(Held)
      case WriteErrors(i) => SectionOf(s.vms[i]).Some? && SectionOf(s.vms[i]).value.Read?
      case Unlock(i) => SectionOf(s.vms[i]) == Some(Wrote)
      case Release(i) => s.vms[i].Releasing? && s.slots > 0
      case Done(i) => s.vms[i].Finishing? && s.waiting > 0
    }
  }

  function Move(stage: Stage, at: Section): Stage
    requires SectionOf(stage).Some?
  {
    if stage.Skipping? then Skipping(at) else Failing(at)
  }

  function Complaint(stage: Stage, i: nat): Failure {
    if stage.Skipping? then Cancelled(i) else Failed(i)
  }

  function Returned(s: State, i: nat, ok: bool): State
    requires i < |s.vms|
  {
    Put(s, i, if ok then Releasing(true) else Failing(Want)).(events := s.events + [RunnerReturned(i, ok)])
  }

  function Apply(s: State, a: Action): State
    requires Enabled(s, a)
  {
    match a
    case Acquire => Put(s, s.next, Granted).(slots := s.slots + 1)
    case SeeCancel => Put(s, s.next, Skipping(Want))
    case Spawn => Put(s, s.next, Spawned).(waiting := s.waiting + 1, next := s.next + 1)
    case Finish => s.(returned := true)
    case Cancel => s.(cancelled := true)
    case Call(i) => Put(s, i, Called).(events := s.events + [RunnerCalled(i)])
    case CheckFails(i) => Returned(s, i, false)
    case CheckPasses(i) => Put(s, i, Passed)
    case Begin(i) => Put(s, i, Building).(began := s.began + [i])
    case Return(i, ok) => Returned(s, i, ok)
    case Lock(i) => Put(s, i, Move(s.vms[i], Held)).(mutex := Some(i))
    case ReadErrors(i) => Put(s, i, Move(s.vms[i], Read(s.errs)))
    case WriteErrors(i) =>
      var snapshot := SectionOf(s.vms[i]).value.snapshot;
      Put(s, i, Move(s.vms[i], Wrote)).(errs := snapshot + [Complaint(s.vms[i], i)])
    case Unlock(i) =>
      if s.vms[i].Skipping? then Put(s, i, Skipped).(mutex := None, next := s.next + 1)
      else Put(s, i, Releasing(false)).(mutex := None)
    case Release(i) => Put(s, i, Finishing(s.vms[i].ok)).(slots := s.slots - 1)
    case Done(i) => Put(s, i, Ended(s.vms[i].ok)).(waiting := s.waiting - 1)
  }

  ghost predicate Run(s: State, actions: seq<Action>)
    decreases |actions|
  {
    actions == [] || (Enabled(s, actions[0]) && Run(Apply(s, actions[0]), actions[1..]))
  }

  ghost function After(s: State, actions: seq<Action>): State
    requires Run(s, actions)
    decreases |actions|
  {
    if actions == [] then s else After(Apply(s, actions[0]), actions[1..])
  }

  ghost predicate Reachable(s: State, config: Config, n: nat) {
    exists actions :: Run(Init(config, n), actions) && After(Init(config, n), actions) == s
  }

  // ----- The invariant

  predicate Decided(stage: Stage) { !stage.Pending? && !stage.Granted? && !stage.Skipping? }

  ghost predicate LoopInv(s: State) {
    && s.next <= |s.vms|
    && (forall i :: 0 <= i < s.next ==> Decided(s.vms[i]))
    && (forall i :: s.next < i < |s.vms| ==> s.vms[i].Pending?)
    && (s.next < |s.vms| ==> !Decided(s.vms[s.next]))
    && (s.returned ==> s.next == |s.vms| && s.waiting == 0)
    && (forall i :: 0 <= i < |s.vms| && (s.vms[i].Skipping? || s.vms[i].Skipped?) ==> s.cancelled)
  }

  ghost predicate CountInv(s: State) {
    && s.slots == Count(s.vms, IsHolding)
    && s.slots <= s.config.parallelism
    && s.waiting == Count(s.vms, IsAwaited)
  }

  ghost predicate MutexInv(s: State) {
    && (s.mutex.Some? ==> s.mutex.value < |s.vms|)
    && (forall i :: 0 <= i < |s.vms| ==> (Inside(s.vms[i]) <==> s.mutex == Some(i)))
    && (forall i :: 0 <= i < |s.vms| && SectionOf(s.vms[i]).Some? && SectionOf(s.vms[i]).value.Read?
                  ==> SectionOf(s.vms[i]).value.snapshot == s.errs)
  }

  function One(b: bool): nat { if b then 1 else 0 }

  ghost predicate ErrorInv(s: State) {
    && |s.errs| == Count(s.vms, IsRecorded)
    && (forall i :: 0 <= i < |s.vms| ==> multiset(s.errs)[Failed(i)] == One(FailureRecorded(s.vms[i])))
    && (forall i :: 0 <= i < |s.vms| ==> multiset(s.errs)[Cancelled(i)] == One(CancelRecorded(s.vms[i])))
    && (forall e :: e in s.errs ==> e.vm < |s.vms|)
  }

  ghost predicate EventInv(s: State) {
    && (forall i :: 0 <= i < |s.vms| ==> multiset(s.events)[RunnerCalled(i)] == One(Entered(s.vms[i])))
    && (forall i, ok :: 0 <= i < |s.vms| ==>
          multiset(s.events)[RunnerReturned(i, ok)] == One(Verdict(s.vms[i]) == Some(ok)))
  }

  ghost predicate Inv(s: State) {
    LoopInv(s) && CountInv(s) && MutexInv(s) && ErrorInv(s) && EventInv(s)
  }

  lemma InitInv(config: Config, n: nat)
    ensures Inv(Init(config, n))
  {
    var s := Init(config, n);
    CountZero(s.vms, IsHolding);
    CountZero(s.vms, IsAwaited);
    CountZero(s.vms, IsRecorded);
  }

  // Each action changes at most one VM.  The ground facts about that one change are split from
  // the lemmas that carry them to the whole state.

  ghost predicate Changes(s: State, s': State, i: nat) {
    i < |s.vms| && |s'.vms| == |s.vms| && s'.vms == s.vms[i := s'.vms[i]] && s'.config == s.config
  }

  lemma ActionLoop(s: State, a: Action)
    requires Enabled(s, a) && LoopInv(s)
    ensures LoopInv(Apply(s, a))
  {
    var s' := Apply(s, a);
    if Subject(s, a).Some? {
      var i := Subject(s, a).value;
      assert Changes(s, s', i);
      assert i < s.next ==> Decided(s.vms[i]);
      assert i > s.next ==> s.vms[i].Pending?;
      if s.vms[i].Skipping? || s.vms[i].Skipped? { assert s.cancelled; }
      ActionLoopOne(s, a, i);
      LoopCarried(s, s', i);
    }
  }

  lemma ActionLoopOne(s: State, a: Action, i: nat)
    requires Enabled(s, a) && Subject(s, a) == Some(i)
    requires s.next <= |s.vms|
    requires if i < s.next then Decided(s.vms[i]) else if i == s.next then !Decided(s.vms[i]) else s.vms[i].Pending?
    ensures i <= s.next
    ensures
      var s' := Apply(s, a);
      && Changes(s, s', i)
      && s'.returned == s.returned && s'.cancelled == s.cancelled
      && (if i < s.next then Decided(s'.vms[i]) && s'.next == s.next
          else if Decided(s'.vms[i]) then s'.next == s.next + 1 else s'.next == s.next)
      && (s'.vms[i].Skipping? || s'.vms[i].Skipped? ==> s.cancelled || s.vms[i].Skipping? || s.vms[i].Skipped?)
  {
  }

  lemma LoopCarried(s: State, s': State, i: nat)
    requires LoopInv(s) && Changes(s, s', i) && i <= s.next && !s.returned
    requires s'.returned == s.returned && s'.cancelled == s.cancelled
    requires if i < s.next then Decided(s'.vms[i]) && s'.next == s.next
             else if Decided(s'.vms[i]) then s'.next == s.next + 1 else s'.next == s.next
    requires s'.vms[i].Skipping? || s'.vms[i].Skipped? ==> s.cancelled
    ensures LoopInv(s')
  {
    assert forall k :: 0 <= k < |s.vms| && k != i ==> s'.vms[k] == s.vms[k];
  }

  lemma ActionCounts(s: State, a: Action)
    requires Enabled(s, a) && CountInv(s)
    ensures CountInv(Apply(s, a))
  {
    var s' := Apply(s, a);
    if Subject(s, a).Some? {
      var i := Subject(s, a).value;
      SlotsOne(s, a, i);
      WaitingOne(s, a, i);
      CountUpdate(s.vms, IsHolding, i, s'.vms[i]);
      CountUpdate(s.vms, IsAwaited, i, s'.vms[i]);
    }
  }

  lemma SlotsOne(s: State, a: Action, i: nat)
    requires Enabled(s, a) && Subject(s, a) == Some(i) && s.slots <= s.config.parallelism
    ensures
      var s' := Apply(s, a);
      && Changes(s, s', i)
      && s'.slots == s.slots - One(HoldsSlot(s.vms[i])) + One(HoldsSlot(s'.vms[i]))
      && s'.slots <= s.config.parallelism
  {
  }

  lemma WaitingOne(s: State, a: Action, i: nat)
    requires Enabled(s, a) && Subject(s, a) == Some(i)
    ensures
      var s' := Apply(s, a);
      s'.waiting == s.waiting - One(Awaited(s.vms[i])) + One(Awaited(s'.vms[i]))
  {
  }

  lemma ActionMutex(s: State, a: Action)
    requires Enabled(s, a) && MutexInv(s)
    ensures MutexInv(Apply(s, a))
  {
    var s' := Apply(s, a);
    if Subject(s, a).Some? {
      var i := Subject(s, a).value;
      assert Inside(s.vms[i]) <==> s.mutex == Some(i);
      ActionMutexOne(s, a, i);
      MutexCarried(s, s', i);
    }
  }

  lemma ActionMutexOne(s: State, a: Action, i: nat)
    requires Enabled(s, a) && Subject(s, a) == Some(i)
    requires Inside(s.vms[i]) <==> s.mutex == Some(i)
    ensures
      var s' := Apply(s, a);
      && Changes(s, s', i)
      && (Inside(s'.vms[i]) <==> s'.mutex == Some(i))
      && (s'.mutex == s.mutex || {s.mutex, s'.mutex} == {None, Some(i)})
      && (s'.errs != s.errs ==> s.mutex == s'.mutex == Some(i) && SectionOf(s'.vms[i]) == Some(Wrote))
      && (SectionOf(s'.vms[i]).Some? && SectionOf(s'.vms[i]).value.Read? ==> SectionOf(s'.vms[i]).value.snapshot == s'.errs)
  {
  }

  lemma MutexCarried(s: State, s': State, i: nat)
    requires MutexInv(s) && Changes(s, s', i)
    requires Inside(s'.vms[i]) <==> s'.mutex == Some(i)
    requires s'.mutex == s.mutex || {s.mutex, s'.mutex} == {None, Some(i)}
    requires s'.errs != s.errs ==> s.mutex == s'.mutex == Some(i) && SectionOf(s'.vms[i]) == Some(Wrote)
    requires SectionOf(s'.vms[i]).Some? && SectionOf(s'.vms[i]).value.Read? ==> SectionOf(s'.vms[i]).value.snapshot == s'.errs
    ensures MutexInv(s')
  {
    assert s.mutex in {s.mutex, s'.mutex} && s'.mutex in {s.mutex, s'.mutex};
    forall k | 0 <= k < |s'.vms|
      ensures Inside(s'.vms[k]) <==> s'.mutex == Some(k)
      ensures SectionOf(s'.vms[k]).Some? && SectionOf(s'.vms[k]).value.Read? ==> SectionOf(s'.vms[k]).value.snapshot == s'.errs
    {
      if k != i {
        assert s'.vms[k] == s.vms[k];
        assert Inside(s.vms[k]) <==> s.mutex == Some(k);
      }
    }
  }

  lemma ActionErrors(s: State, a: Action)
    requires Enabled(s, a) && ErrorInv(s) && MutexInv(s)
    ensures ErrorInv(Apply(s, a))
  {
    var s' := Apply(s, a);
    if Subject(s, a).Some? {
      var i := Subject(s, a).value;
      ActionErrorsOne(s, a, i);
      CountUpdate(s.vms, IsRecorded, i, s'.vms[i]);
      ErrorsCarried(s, s', i);
    }
  }

  lemma ActionErrorsOne(s: State, a: Action, i: nat)
    requires Enabled(s, a) && Subject(s, a) == Some(i)
    requires SectionOf(s.vms[i]).Some? && SectionOf(s.vms[i]).value.Read? ==> SectionOf(s.vms[i]).value.snapshot == s.errs
    ensures
      var s' := Apply(s, a);
      if a.WriteErrors? then ComplaintAdded(s, s', i) else ErrorsKept(s, s', i)
  {
    if a.WriteErrors? {
      WriteErrorsOne(s, i);
    } else {
      OtherErrorsOne(s, a, i);
    }
  }

  ghost predicate ComplaintAdded(s: State, s': State, i: nat) {
    && Changes(s, s', i)
    && s'.errs == s.errs + [Complaint(s.vms[i], i)]
    && !Recorded(s.vms[i])
    && FailureRecorded(s'.vms[i]) == Complaint(s.vms[i], i).Failed?
    && CancelRecorded(s'.vms[i]) == Complaint(s.vms[i], i).Cancelled?
  }

  ghost predicate ErrorsKept(s: State, s': State, i: nat) {
    && Changes(s, s', i)
    && s'.errs == s.errs
    && FailureRecorded(s'.vms[i]) == FailureRecorded(s.vms[i])
    && CancelRecorded(s'.vms[i]) == CancelRecorded(s.vms[i])
  }

  lemma WriteErrorsOne(s: State, i: nat)
    requires Enabled(s, WriteErrors(i)) && SectionOf(s.vms[i]).value.snapshot == s.errs
    ensures ComplaintAdded(s, Apply(s, WriteErrors(i)), i)
  {
  }

  lemma OtherErrorsOne(s: State, a: Action, i: nat)
    requires Enabled(s, a) && Subject(s, a) == Some(i) && !a.WriteErrors?
    ensures ErrorsKept(s, Apply(s, a), i)
  {
  }

  lemma ErrorsCarried(s: State, s': State, i: nat)
    requires ErrorInv(s) && Changes(s, s', i)
    requires Count(s'.vms, IsRecorded) == Count(s.vms, IsRecorded) - One(Recorded(s.vms[i])) + One(Recorded(s'.vms[i]))
    requires ErrorsKept(s, s', i) || ComplaintAdded(s, s', i)
    ensures ErrorInv(s')
  {
    forall k | 0 <= k < |s'.vms|
      ensures multiset(s'.errs)[Failed(k)] == One(FailureRecorded(s'.vms[k]))
      ensures multiset(s'.errs)[Cancelled(k)] == One(CancelRecorded(s'.vms[k]))
    {
      assert multiset(s.errs)[Failed(k)] == One(FailureRecorded(s.vms[k]));
      assert multiset(s.errs)[Cancelled(k)] == One(CancelRecorded(s.vms[k]));
      assert k != i ==> s'.vms[k] == s.vms[k];
    }
  }

  lemma ActionEvents(s: State, a: Action)
    requires Enabled(s, a) && EventInv(s)
    ensures EventInv(Apply(s, a))
  {
    var s' := Apply(s, a);
    if Subject(s, a).Some? {
      var i := Subject(s, a).value;
      ActionEventsOne(s, a, i);
      EventsCarried(s, s', i, ActionEvent(s, a));
    }
  }

  function ActionEvent(s: State, a: Action): Option<Event> {
    match a
    case Call(i) => Some(RunnerCalled(i))
    case CheckFails(i) => Some(RunnerReturned(i, false))
    case Return(i, ok) => Some(RunnerReturned(i, ok))
    case _ => None
  }

  lemma ActionEventsOne(s: State, a: Action, i: nat)
    requires Enabled(s, a) && Subject(s, a) == Some(i)
    ensures
      var s' := Apply(s, a);
      var o, x := s.vms[i], s'.vms[i];
      && Changes(s, s', i)
      && match ActionEvent(s, a) {
        case None => s'.events == s.events && Entered(o) == Entered(x) && Verdict(o) == Verdict(x)
        case Some(e) =>
          && s'.events == s.events + [e]
          && Verdict(o).None? && Entered(x)
          && (e == RunnerCalled(i) ==> !Entered(o) && Verdict(x).None?)
          && (e.RunnerReturned? ==> e.vm == i && Entered(o) && Verdict(x) == Some(e.ok))
          && (e.RunnerCalled? ==> e.vm == i)
      }
  {
  }

  lemma EventsCarried(s: State, s': State, i: nat, e: Option<Event>)
    requires EventInv(s) && Changes(s, s', i)
    requires
      var o, x := s.vms[i], s'.vms[i];
      match e {
        case None => s'.events == s.events && Entered(o) == Entered(x) && Verdict(o) == Verdict(x)
        case Some(e) =>
          && s'.events == s.events + [e]
          && Verdict(o).None? && Entered(x)
          && (e == RunnerCalled(i) ==> !Entered(o) && Verdict(x).None?)
          && (e.RunnerReturned? ==> e.vm == i && Entered(o) && Verdict(x) == Some(e.ok))
          && (e.RunnerCalled? ==> e.vm == i)
      }
    ensures EventInv(s')
  {
    forall k | 0 <= k < |s'.vms|
      ensures multiset(s'.events)[RunnerCalled(k)] == One(Entered(s'.vms[k]))
    {
      assert multiset(s.events)[RunnerCalled(k)] == One(Entered(s.vms[k]));
      assert k != i ==> s'.vms[k] == s.vms[k];
    }
    forall k, ok | 0 <= k < |s'.vms|
      ensures multiset(s'.events)[RunnerReturned(k, ok)] == One(Verdict(s'.vms[k]) == Some(ok))
    {
      assert multiset(s.events)[RunnerReturned(k, ok)] == One(Verdict(s.vms[k]) == Some(ok));
      assert k != i ==> s'.vms[k] == s.vms[k];
    }
  }

  lemma StepInv(s: State, a: Action)
    requires Inv(s) && Enabled(s, a)
    ensures Inv(Apply(s, a))
    ensures Apply(s, a).config == s.config && |Apply(s, a).vms| == |s.vms|
  {
    ActionLoop(s, a);
    ActionCounts(s, a);
    ActionMutex(s, a);
    ActionErrors(s, a);
    ActionEvents(s, a);
    ActionFrame(s, a);
  }

  lemma ActionFrame(s: State, a: Action)
    requires Enabled(s, a)
    ensures Apply(s, a).config == s.config && |Apply(s, a).vms| == |s.vms|
  {
  }

  lemma {:induction false} RunInv(s: State, actions: seq<Action>)
    requires Inv(s) && Run(s, actions)
    ensures Inv(After(s, actions))
    ensures After(s, actions).config == s.config && |After(s, actions).vms| == |s.vms|
    decreases |actions|
  {
    if actions != [] {
      var s' := Apply(s, actions[0]);
      StepInv(s, actions[0]);
      RunInv(s', actions[1..]);
      assert After(s, actions) == After(s', actions[1..]);
    }
  }

  lemma ReachableInv(s: State, config: Config, n: nat)
    requires Reachable(s, config, n)
    ensures Inv(s) && s.config == config && |s.vms| == n
  {
    var actions :| Run(Init(config, n), actions) && After(Init(config, n), actions) == s;
    InitInv(config, n);
    RunInv(Init(config, n), actions);
  }

  // ----- What has happened when runParallelBuilds returns

  predicate Settled(stage: Stage) { stage.Ended? || stage.Skipped? }

  lemma ReturnedSettled(s: State)
    requires LoopInv(s) && CountInv(s) && s.returned
    ensures forall i :: 0 <= i < |s.vms| ==> Settled(s.vms[i])
    ensures s.slots == 0 && Count(s.vms, IsWorking) == 0
    ensures Count(s.vms, IsRecorded) == Count(s.vms, IsFailed) + Count(s.vms, IsSkipped)
  {
    CountZero(s.vms, IsAwaited);
    forall i | 0 <= i < |s.vms|
      ensures Settled(s.vms[i])
    {
      assert Decided(s.vms[i]) && !IsAwaited(s.vms[i]);
    }
    CountZero(s.vms, IsHolding);
    CountZero(s.vms, IsWorking);
    CountSplit(s.vms, IsFailed, IsSkipped, IsRecorded);
  }

  /** Exactly one outcome per VM, one error per failed or cancelled VM, and nothing still going on. */
  lemma ReturnedOutcomes(s: State, config: Config, n: nat)
    requires Reachable(s, config, n) && s.returned
    ensures |s.vms| == n
    ensures forall i :: 0 <= i < n ==> s.vms[i] in {Ended(true), Ended(false), Skipped}
    ensures forall i, ok :: 0 <= i < n ==> multiset(s.events)[RunnerReturned(i, ok)] == One(s.vms[i] == Ended(ok))
    ensures forall i :: 0 <= i < n ==> multiset(s.events)[RunnerCalled(i)] == One(s.vms[i] != Skipped)
    ensures forall i :: 0 <= i < n ==> multiset(s.errs)[Failed(i)] == One(s.vms[i] == Ended(false))
    ensures forall i :: 0 <= i < n ==> multiset(s.errs)[Cancelled(i)] == One(s.vms[i] == Skipped)
    ensures |s.errs| == Count(s.vms, IsFailed) + Count(s.vms, IsSkipped)
    ensures s.slots == 0 && s.mutex.None? && Count(s.vms, IsWorking) == 0
  {
    ReachableInv(s, config, n);
    ReturnedSettled(s);
    forall i | 0 <= i < n
      ensures s.vms[i] in {Ended(true), Ended(false), Skipped}
      ensures forall ok :: multiset(s.events)[RunnerReturned(i, ok)] == One(s.vms[i] == Ended(ok))
      ensures multiset(s.events)[RunnerCalled(i)] == One(s.vms[i] != Skipped)
      ensures multiset(s.errs)[Failed(i)] == One(s.vms[i] == Ended(false))
      ensures multiset(s.errs)[Cancelled(i)] == One(s.vms[i] == Skipped)
    {
      ReturnedOne(s, i);
    }
    if s.mutex.Some? {
      assert Inside(s.vms[s.mutex.value]);
    }
  }

  lemma ReturnedOne(s: State, i: nat)
    requires ErrorInv(s) && EventInv(s) && i < |s.vms| && Settled(s.vms[i])
    ensures s.vms[i] in {Ended(true), Ended(false), Skipped}
    ensures forall ok :: multiset(s.events)[RunnerReturned(i, ok)] == One(s.vms[i] == Ended(ok))
    ensures multiset(s.events)[RunnerCalled(i)] == One(s.vms[i] != Skipped)
    ensures multiset(s.errs)[Failed(i)] == One(s.vms[i] == Ended(false))
    ensures multiset(s.errs)[Cancelled(i)] == One(s.vms[i] == Skipped)
  {
    assert forall ok :: multiset(s.events)[RunnerReturned(i, ok)] == One(Verdict(s.vms[i]) == Some(ok));
  }

  /** Without cancellation every VM's runner was called exactly once, whatever the others returned. */
  lemma UncancelledCallsAll(s: State, config: Config, n: nat, i: nat)
    requires Reachable(s, config, n) && s.returned && !s.cancelled && i < n
    ensures |s.vms| == n
    ensures multiset(s.events)[RunnerCalled(i)] == 1
    ensures s.vms[i].Ended? && multiset(s.errs)[Cancelled(i)] == 0
  {
    ReachableInv(s, config, n);
    ReturnedOutcomes(s, config, n);
    assert s.vms[i] in {Ended(true), Ended(false), Skipped};
  }

  lemma {:induction false} WorkingAtMostHolding(vms: seq<Stage>)
    ensures Count(vms, IsWorking) <= Count(vms, IsHolding)
  {
    if vms != [] {
      WorkingAtMostHolding(vms[1..]);
    }
  }

  /** The channel holds one token per held slot, so never more runners are active than allowed. */
  lemma ParallelismRespected(s: State, config: Config, n: nat)
    requires Reachable(s, config, n)
    ensures s.slots == Count(s.vms, IsHolding)
    ensures Count(s.vms, IsWorking) <= s.slots <= config.parallelism
  {
    ReachableInv(s, config, n);
    WorkingAtMostHolding(s.vms);
  }

  // ----- No reachable state is stuck, and no run goes on for ever

  /** An action of the loop or of a goroutine that is always possible before the return. */
  lemma SomeActionEnabled(s: State) returns (a: Action)
    requires Inv(s) && !s.returned && s.config.parallelism >= 1
    ensures Enabled(s, a) && !a.Cancel? && !a.SeeCancel?
  {
    if s.mutex.Some? {
      a := SectionAction(s, s.mutex.value);
      return;
    }
    if i :| 0 <= i < |s.vms| && Movable(s.vms[i]) {
      a := WorkerAction(s, i);
      return;
    }
    if s.next < |s.vms| {
      if s.vms[s.next].Granted? {
        return Spawn;
      }
      assert s.vms[s.next].Pending?;
      CountZero(s.vms, IsHolding);
      assert s.slots == 0;
      return Acquire;
    }
    CountZero(s.vms, IsAwaited);
    assert s.waiting == 0;
    return Finish;
  }

  predicate Movable(stage: Stage) {
    Awaited(stage) || stage.Skipping?
  }

  lemma SectionAction(s: State, i: nat) returns (a: Action)
    requires Inv(s) && !s.returned && s.mutex == Some(i)
    ensures Enabled(s, a) && (a.ReadErrors? || a.WriteErrors? || a.Unlock?)
  {
    assert Inside(s.vms[i]);
    match SectionOf(s.vms[i]).value
    case Held => a := ReadErrors(i);
    case Read(_) => a := WriteErrors(i);
    case Wrote => a := Unlock(i);
  }

  lemma WorkerAction(s: State, i: nat) returns (a: Action)
    requires Inv(s) && !s.returned && s.mutex.None? && i < |s.vms| && Movable(s.vms[i])
    ensures Enabled(s, a) && !a.Cancel? && !a.SeeCancel? && !a.Acquire? && !a.Spawn?
  {
    SlotCounted(s, i);
    if SectionOf(s.vms[i]).Some? {
      WantsMutex(s, i);
    }
    a := EnabledWorker(s, i);
  }

  lemma SlotCounted(s: State, i: nat)
    requires CountInv(s) && i < |s.vms|
    ensures HoldsSlot(s.vms[i]) ==> s.slots > 0
    ensures Awaited(s.vms[i]) ==> s.waiting > 0
  {
    CountZero(s.vms, IsHolding);
    CountZero(s.vms, IsAwaited);
    assert IsHolding(s.vms[i]) == HoldsSlot(s.vms[i]) && IsAwaited(s.vms[i]) == Awaited(s.vms[i]);
  }

  lemma WantsMutex(s: State, i: nat)
    requires MutexInv(s) && s.mutex.None? && i < |s.vms| && SectionOf(s.vms[i]).Some?
    ensures SectionOf(s.vms[i]) == Some(Want)
  {
    assert !Inside(s.vms[i]);
  }

  lemma EnabledWorker(s: State, i: nat) returns (a: Action)
    requires !s.returned && s.mutex.None? && i < |s.vms| && Movable(s.vms[i])
    requires HoldsSlot(s.vms[i]) ==> s.slots > 0
    requires Awaited(s.vms[i]) ==> s.waiting > 0
    requires SectionOf(s.vms[i]).Some? ==> SectionOf(s.vms[i]) == Some(Want)
    ensures Enabled(s, a) && !a.Cancel? && !a.SeeCancel? && !a.Acquire? && !a.Spawn?
  {
    match s.vms[i]
    case Spawned => a := Call(i);
    case Called =>
      a := if !s.config.guarded then Return(i, true) else if s.cancelled then CheckFails(i) else CheckPasses(i);
    case Passed => a := Begin(i);
    case Building => a := Return(i, true);
    case Releasing(_) => a := Release(i);
    case Finishing(_) => a := Done(i);
    case _ => a := Lock(i);
  }

  function Remaining(stage: Stage): int {
    match stage
    case Pending => 12
    case Granted => 11
    case Spawned => 10
    case Called => 9
    case Passed => 8
    case Building => 7
    case Failing(at) => 3 + SectionLeft(at)
    case Skipping(at) => 1 + SectionLeft(at)
    case Skipped => 0
    case Releasing(_) => 2
    case Finishing(_) => 1
    case Ended(_) => 0
  }

  function SectionLeft(at: Section): int {
    match at
    case Want => 3
    case Held => 2
    case Read(_) => 1
    case Wrote => 0
  }

  const Work: Stage -> int := x => Remaining(x)

  /** Stages left over all VMs, plus one for a return and one for a cancellation still to come. */
  function Measure(s: State): int {
    Sum(s.vms, Work) + One(!s.returned) + One(!s.cancelled)
  }

  lemma MeasureDecreases(s: State, a: Action)
    requires Enabled(s, a)
    ensures Measure(Apply(s, a)) < Measure(s)
  {
    var s' := Apply(s, a);
    if Subject(s, a).Some? {
      var i := Subject(s, a).value;
      ActionShrinks(s, a, i);
      SumUpdate(s.vms, Work, i, s'.vms[i]);
    }
  }

  lemma ActionShrinks(s: State, a: Action, i: nat)
    requires Enabled(s, a) && Subject(s, a) == Some(i)
    ensures
      var s' := Apply(s, a);
      && Changes(s, s', i)
      && Remaining(s'.vms[i]) < Remaining(s.vms[i])
      && s'.returned == s.returned && s'.cancelled == s.cancelled
  {
  }

  lemma MeasureNonNegative(s: State)
    ensures Measure(s) >= 0
  {
    SumConst(s.vms, (x: Stage) => 0, 0);
    SumLeq(s.vms, (x: Stage) => 0, s.vms, Work);
  }

  lemma {:induction false} RunShorterThanMeasure(s: State, actions: seq<Action>)
    requires Run(s, actions)
    ensures |actions| + Measure(After(s, actions)) <= Measure(s)
    decreases |actions|
  {
    if actions != [] {
      var s' := Apply(s, actions[0]);
      MeasureDecreases(s, actions[0]);
      RunShorterThanMeasure(s', actions[1..]);
      assert After(s, actions) == After(s', actions[1..]);
    }
  }

  /** Every run has at most 12 actions per VM and two more, and one that cannot be extended has returned. */
  lemma RunsEndReturned(config: Config, n: nat, actions: seq<Action>)
    requires Run(Init(config, n), actions)
    ensures |actions| <= 12 * n + 2
    ensures
      var s := After(Init(config, n), actions);
      config.parallelism >= 1 && (forall a :: !Enabled(s, a)) ==> s.returned
  {
    var init := Init(config, n);
    var s := After(init, actions);
    RunShorterThanMeasure(init, actions);
    MeasureNonNegative(s);
    SumConst(init.vms, Work, 12);
    InitInv(config, n);
    RunInv(init, actions);
    if config.parallelism >= 1 && !s.returned {
      var a := SomeActionEnabled(s);
    }
  }

  // ----- No slots at all

  predicate NeverLaunched(stage: Stage) { stage.Pending? || stage.Skipping? || stage.Skipped? }

  ghost predicate NothingLaunched(s: State) {
    forall i :: 0 <= i < |s.vms| ==> NeverLaunched(s.vms[i])
  }

  lemma StepLaunchesNothing(s: State, a: Action)
    requires Enabled(s, a) && s.config.parallelism == 0 && NothingLaunched(s)
    ensures NothingLaunched(Apply(s, a)) && Apply(s, a).config == s.config
    ensures !a.Spawn? && !a.Acquire?
  {
    if Subject(s, a).Some? {
      assert NeverLaunched(s.vms[Subject(s, a).value]);
    }
  }

  lemma {:induction false} RunLaunchesNothing(s: State, actions: seq<Action>)
    requires Run(s, actions) && s.config.parallelism == 0 && NothingLaunched(s)
    ensures NothingLaunched(After(s, actions)) && Spawn !in actions
    decreases |actions|
  {
    if actions != [] {
      var s' := Apply(s, actions[0]);
      StepLaunchesNothing(s, actions[0]);
      RunLaunchesNothing(s', actions[1..]);
      assert After(s, actions) == After(s', actions[1..]);
      assert actions == [actions[0]] + actions[1..];
    }
  }

  /** Without slots no run ever starts a goroutine. */
  lemma NoSlotsNeverSpawn(config: Config, n: nat, actions: seq<Action>)
    requires config.parallelism == 0 && Run(Init(config, n), actions)
    ensures Spawn !in actions
    ensures NothingLaunched(After(Init(config, n), actions))
  {
    RunLaunchesNothing(Init(config, n), actions);
  }

  /** What the loop itself can always do once the context is cancelled, whatever the channel holds. */
  lemma CancelledProgress(s: State) returns (a: Action)
    requires Inv(s) && !s.returned && s.cancelled && NothingLaunched(s)
    ensures Enabled(s, a) && !a.Cancel?
  {
    if s.mutex.Some? {
      a := SectionAction(s, s.mutex.value);
    } else if s.next < |s.vms| {
      assert NeverLaunched(s.vms[s.next]) && !Decided(s.vms[s.next]);
      if s.vms[s.next].Skipping? {
        a := WorkerAction(s, s.next);
      } else {
        a := SeeCancel;
      }
    } else {
      forall i | 0 <= i < |s.vms| ensures !IsAwaited(s.vms[i]) {
        assert NeverLaunched(s.vms[i]);
      }
      CountZero(s.vms, IsAwaited);
      a := Finish;
    }
  }

  lemma BlockedAtFirst(s: State, a: Action)
    requires Inv(s) && s.config.parallelism == 0 && !s.cancelled && NothingLaunched(s) && |s.vms| > 0
    requires Enabled(s, a)
    ensures a.Cancel?
  {
    forall i | 0 <= i < |s.vms| ensures s.vms[i].Pending? {
      assert NeverLaunched(s.vms[i]);
    }
    assert s.next == 0;
  }

  /** At the start all that can happen then is a cancellation. */
  lemma NoSlotsBlocks(config: Config, n: nat, a: Action)
    requires config.parallelism == 0 && n > 0
    ensures Enabled(Init(config, n), a) <==> a.Cancel?
  {
    InitInv(config, n);
    if Enabled(Init(config, n), a) {
      BlockedAtFirst(Init(config, n), a);
    }
  }

  /**
   Before the return something other than a cancellation can happen exactly when there is a
   slot, the context is cancelled, or there is no VM: with parallelism zero the loop blocks at
   the first VM until it is cancelled.
   */
  lemma ProgressExactly(s: State, config: Config, n: nat)
    requires Reachable(s, config, n) && !s.returned
    ensures (exists a: Action :: Enabled(s, a) && !a.Cancel?) <==> config.parallelism >= 1 || s.cancelled || n == 0
  {
    ReachableInv(s, config, n);
    if config.parallelism >= 1 {
      var a := SomeActionEnabled(s);
    } else {
      var actions :| Run(Init(config, n), actions) && After(Init(config, n), actions) == s;
      RunLaunchesNothing(Init(config, n), actions);
      if s.cancelled {
        var a := CancelledProgress(s);
      } else if n == 0 {
        CountZero(s.vms, IsAwaited);
        assert Enabled(s, Finish);
      } else {
        forall a | Enabled(s, a) ensures a.Cancel? {
          BlockedAtFirst(s, a);
        }
      }
    }
  }

  // ----- One slot: runner intervals are disjoint and follow the input order

  predicate Untouched(stage: Stage) { stage.Pending? || stage.Skipping? || stage.Skipped? }

  /** Calls and returns alternate, each return answers the call before it, and calls go up the list. */
  ghost predicate InOrder(events: seq<Event>) {
    && (forall k :: 0 <= k < |events| ==> (events[k].RunnerCalled? <==> k % 2 == 0))
    && (forall k :: 1 <= k < |events| && k % 2 == 1 ==> events[k].vm == events[k - 1].vm)
    && (forall j, k :: 0 <= j < k < |events| && k % 2 == 0 ==> events[j].vm < events[k].vm)
  }

  ghost predicate OneAtATime(s: State) {
    && (forall i, j :: 0 <= i < j < |s.vms| && HoldsSlot(s.vms[i]) ==> Untouched(s.vms[j]))
    && InOrder(s.events)
    && (forall k :: 0 <= k < |s.events| ==> s.events[k].vm < |s.vms| && Entered(s.vms[s.events[k].vm]))
    && (|s.events| % 2 == 1 ==> Working(s.vms[s.events[|s.events| - 1].vm]))
    && (|s.events| % 2 == 0 ==> forall i :: 0 <= i < |s.vms| ==> !Working(s.vms[i]))
  }

  lemma StepHolders(s: State, a: Action)
    requires Inv(s) && Enabled(s, a) && s.config.parallelism == 1 && OneAtATime(s)
    ensures
      var s' := Apply(s, a);
      forall i, j :: 0 <= i < j < |s'.vms| && HoldsSlot(s'.vms[i]) ==> Untouched(s'.vms[j])
  {
    var s' := Apply(s, a);
    if Subject(s, a).Some? {
      var c := Subject(s, a).value;
      HolderOne(s, a, c);
      CountZero(s.vms, IsHolding);
      assert a.Acquire? ==> forall i :: 0 <= i < |s.vms| ==> !HoldsSlot(s.vms[i]) by {
        if a.Acquire? {
          forall i | 0 <= i < |s.vms| ensures !HoldsSlot(s.vms[i]) { assert !IsHolding(s.vms[i]); }
        }
      }
      forall i, j | 0 <= i < j < |s'.vms| && HoldsSlot(s'.vms[i])
        ensures Untouched(s'.vms[j])
      {
        if i != c { assert s'.vms[i] == s.vms[i]; }
        if j != c { assert s'.vms[j] == s.vms[j]; }
        if a.Acquire? && i == c { assert s.vms[j].Pending?; }
      }
    }
  }

  lemma HolderOne(s: State, a: Action, c: nat)
    requires Enabled(s, a) && Subject(s, a) == Some(c)
    ensures
      var s' := Apply(s, a);
      && Changes(s, s', c)
      && (a.Acquire? ==> s'.vms[c].Granted? && c == s.next && s.slots < s.config.parallelism)
      && (!a.Acquire? ==> (HoldsSlot(s'.vms[c]) ==> HoldsSlot(s.vms[c])) && (Untouched(s.vms[c]) ==> Untouched(s'.vms[c])))
  {
  }

  /** What an action, with the event it records if any, means for the one VM it changes. */
  ghost predicate Recorder(s: State, s': State, c: nat, e: Option<Event>) {
    && Changes(s, s', c)
    && (e.None? ==> s'.events == s.events && Entered(s'.vms[c]) == Entered(s.vms[c]) && Working(s'.vms[c]) == Working(s.vms[c]))
    && (e.Some? ==>
          && s'.events == s.events + [e.value]
          && e.value.vm == c
          && HoldsSlot(s.vms[c])
          && Entered(s'.vms[c])
          && Working(s.vms[c]) == e.value.RunnerReturned?
          && Working(s'.vms[c]) == e.value.RunnerCalled?
          && (e.value.RunnerCalled? ==> !Entered(s.vms[c])))
  }

  lemma RecorderOne(s: State, a: Action, c: nat)
    requires Enabled(s, a) && Subject(s, a) == Some(c)
    ensures Recorder(s, Apply(s, a), c, ActionEvent(s, a))
  {
  }

  lemma StepOneAtATime(s: State, a: Action)
    requires Inv(s) && Enabled(s, a) && s.config.parallelism == 1 && OneAtATime(s)
    ensures OneAtATime(Apply(s, a))
  {
    StepHolders(s, a);
    if Subject(s, a).Some? {
      var c := Subject(s, a).value;
      RecorderOne(s, a, c);
      EventsInOrder(s, Apply(s, a), c, ActionEvent(s, a));
    } else {
      NoSubjectKeepsOrder(s, a);
    }
  }

  lemma NoSubjectKeepsOrder(s: State, a: Action)
    requires Enabled(s, a) && Subject(s, a).None? && OneAtATime(s)
    ensures OneAtATime(Apply(s, a))
  {
    assert Apply(s, a).vms == s.vms && Apply(s, a).events == s.events;
  }

  lemma EventsInOrder(s: State, s': State, c: nat, e: Option<Event>)
    requires OneAtATime(s) && Recorder(s, s', c, e)
    requires forall i, j :: 0 <= i < j < |s'.vms| && HoldsSlot(s'.vms[i]) ==> Untouched(s'.vms[j])
    ensures OneAtATime(s')
  {
    assert forall i :: 0 <= i < |s.vms| && i != c ==> s'.vms[i] == s.vms[i];
    if e.Some? {
      OnlyHolder(s, c);
      if e.value.RunnerCalled? {
        CallInOrder(s, s', c);
      } else {
        ReturnInOrder(s, s', c, e.value);
      }
    }
  }

  lemma CallInOrder(s: State, s': State, c: nat)
    requires OneAtATime(s) && Recorder(s, s', c, Some(RunnerCalled(c)))
    ensures |s.events| % 2 == 0 && InOrder(s'.events)
  {
    OnlyHolder(s, c);
    assert |s.events| % 2 == 0;
    EnteredBelow(s, c);
    AppendCall(s.events, c);
  }

  lemma ReturnInOrder(s: State, s': State, c: nat, e: Event)
    requires OneAtATime(s) && Recorder(s, s', c, Some(e)) && e.RunnerReturned?
    ensures |s.events| % 2 == 1 && InOrder(s'.events)
  {
    OnlyHolder(s, c);
    assert |s.events| % 2 == 1;
    AppendReturn(s.events, e);
  }

  lemma OnlyHolder(s: State, c: nat)
    requires OneAtATime(s) && c < |s.vms| && HoldsSlot(s.vms[c])
    ensures forall i :: 0 <= i < |s.vms| && Working(s.vms[i]) ==> i == c
  {
    forall i | 0 <= i < |s.vms| && Working(s.vms[i])
      ensures i == c
    {
      assert i < c ==> Untouched(s.vms[c]);
      assert i > c ==> Untouched(s.vms[i]);
    }
  }

  lemma EnteredBelow(s: State, c: nat)
    requires OneAtATime(s) && c < |s.vms| && HoldsSlot(s.vms[c]) && !Entered(s.vms[c])
    ensures forall j :: 0 <= j < |s.events| ==> s.events[j].vm < c
  {
    forall j | 0 <= j < |s.events|
      ensures s.events[j].vm < c
    {
      var v := s.events[j].vm;
      assert Entered(s.vms[v]);
      assert v > c ==> Untouched(s.vms[v]);
    }
  }

  lemma AppendCall(events: seq<Event>, c: nat)
    requires InOrder(events) && |events| % 2 == 0
    requires forall j :: 0 <= j < |events| ==> events[j].vm < c
    ensures InOrder(events + [RunnerCalled(c)])
  {
  }

  lemma AppendReturn(events: seq<Event>, e: Event)
    requires InOrder(events) && |events| % 2 == 1
    requires e.RunnerReturned? && e.vm == events[|events| - 1].vm
    ensures InOrder(events + [e])
  {
  }

  lemma {:induction false} RunOneAtATime(s: State, actions: seq<Action>)
    requires Inv(s) && Run(s, actions) && s.config.parallelism == 1 && OneAtATime(s)
    ensures OneAtATime(After(s, actions))
    decreases |actions|
  {
    if actions != [] {
      var s' := Apply(s, actions[0]);
      StepInv(s, actions[0]);
      StepOneAtATime(s, actions[0]);
      RunOneAtATime(s', actions[1..]);
      assert After(s, actions) == After(s', actions[1..]);
    }
  }

  /** With one slot the runner intervals are disjoint and start in input order. */
  lemma SequentialWithOneSlot(s: State, config: Config, n: nat)
    requires Reachable(s, config, n) && config.parallelism == 1
    ensures InOrder(s.events)
  {
    var actions :| Run(Init(config, n), actions) && After(Init(config, n), actions) == s;
    InitInv(config, n);
    RunOneAtATime(Init(config, n), actions);
  }

  // ----- Which builds begin

  /** How often the build of a VM at some stage has begun, under the context-checking runner. */
  predicate BeganFits(stage: Stage, count: nat, cancelled: bool) {
    if stage.Building? || Verdict(stage) == Some(true) then count == 1
    else if Verdict(stage) == Some(false) then count == 1 || (count == 0 && cancelled)
    else count == 0
  }

  ghost predicate BeganInv(s: State) {
    && (forall i :: 0 <= i < |s.vms| ==> BeganFits(s.vms[i], multiset(s.began)[i], s.cancelled))
    && (forall i :: i in s.began ==> i < |s.vms|)
  }

  lemma ActionBegan(s: State, a: Action)
    requires Enabled(s, a) && BeganInv(s) && s.config.guarded
    ensures BeganInv(Apply(s, a))
  {
    var s' := Apply(s, a);
    if Subject(s, a).Some? {
      var i := Subject(s, a).value;
      assert BeganFits(s.vms[i], multiset(s.began)[i], s.cancelled);
      ActionBeganOne(s, a, i);
      forall k | 0 <= k < |s'.vms|
        ensures BeganFits(s'.vms[k], multiset(s'.began)[k], s'.cancelled)
      {
        assert BeganFits(s.vms[k], multiset(s.began)[k], s.cancelled);
        assert k != i ==> s'.vms[k] == s.vms[k];
      }
    }
  }

  lemma ActionBeganOne(s: State, a: Action, i: nat)
    requires Enabled(s, a) && Subject(s, a) == Some(i) && s.config.guarded
    requires BeganFits(s.vms[i], multiset(s.began)[i], s.cancelled)
    ensures
      var s' := Apply(s, a);
      && Changes(s, s', i)
      && s'.cancelled == s.cancelled
      && s'.began == s.began + (if a.Begin? then [i] else [])
      && BeganFits(s'.vms[i], multiset(s.began)[i] + One(a.Begin?), s.cancelled)
  {
    BeganRecorded(s, a, i);
    BeganStage(s, a, i, multiset(s.began)[i]);
  }

  lemma BeganRecorded(s: State, a: Action, i: nat)
    requires Enabled(s, a) && Subject(s, a) == Some(i)
    ensures
      var s' := Apply(s, a);
      && Changes(s, s', i)
      && s'.cancelled == s.cancelled
      && s'.began == s.began + (if a.Begin? then [i] else [])
  {
  }

  lemma BeganStage(s: State, a: Action, i: nat, count: nat)
    requires Enabled(s, a) && Subject(s, a) == Some(i) && s.config.guarded
    requires BeganFits(s.vms[i], count, s.cancelled)
    ensures i < |Apply(s, a).vms| && BeganFits(Apply(s, a).vms[i], count + One(a.Begin?), s.cancelled)
  {
  }

  lemma {:induction false} RunBegan(s: State, actions: seq<Action>)
    requires Run(s, actions) && BeganInv(s) && s.config.guarded
    ensures BeganInv(After(s, actions))
    decreases |actions|
  {
    if actions != [] {
      var s' := Apply(s, actions[0]);
      ActionBegan(s, actions[0]);
      ActionFrame(s, actions[0]);
      RunBegan(s', actions[1..]);
      assert After(s, actions) == After(s', actions[1..]);
    }
  }

  /**
   A build that is going on has begun once, and so has every build whose runner returned; only a
   cancellation lets a runner fail without having begun.  No other build has begun.
   */
  lemma BuildsBegun(s: State, config: Config, n: nat, i: nat)
    requires Reachable(s, config, n) && config.guarded && i < n
    ensures |s.vms| == n
    ensures s.vms[i].Building? || Verdict(s.vms[i]) == Some(true) ==> multiset(s.began)[i] == 1
    ensures Verdict(s.vms[i]) == Some(false) ==> multiset(s.began)[i] <= 1 && (!s.cancelled ==> multiset(s.began)[i] == 1)
    ensures !s.vms[i].Building? && Verdict(s.vms[i]).None? ==> multiset(s.began)[i] == 0
  {
    var actions :| Run(Init(config, n), actions) && After(Init(config, n), actions) == s;
    ReachableInv(s, config, n);
    RunBegan(Init(config, n), actions);
    assert BeganFits(s.vms[i], multiset(s.began)[i], s.cancelled);
  }

  /** Without a cancellation the build of every VM has begun exactly once at the return, and nothing else has. */
  lemma UncancelledBuildsAll(s: State, config: Config, n: nat)
    requires Reachable(s, config, n) && config.guarded && s.returned && !s.cancelled
    ensures forall i :: 0 <= i < n ==> multiset(s.began)[i] == 1
    ensures forall i :: i in s.began ==> i < n
  {
    ReturnedOutcomes(s, config, n);
    forall i | 0 <= i < n ensures multiset(s.began)[i] == 1 {
      UncancelledCallsAll(s, config, n, i);
      BuildsBegun(s, config, n, i);
    }
    var actions :| Run(Init(config, n), actions) && After(Init(config, n), actions) == s;
    RunBegan(Init(config, n), actions);
  }

  // ----- Every combination of outcomes can happen

  /** Before VM i the outcomes are as wished, from i on nothing has happened, and nothing is going on. */
  ghost predicate ServedUpTo(s: State, config: Config, wished: seq<Stage>, i: nat, cancelled: bool) {
    && s.config == config && |s.vms| == |wished| && i <= |wished|
    && s.next == i && !s.returned && s.cancelled == cancelled
    && s.slots == 0 && s.waiting == 0 && s.mutex.None?
    && (forall k :: 0 <= k < i ==> s.vms[k] == wished[k])
    && (forall k :: i <= k < |wished| ==> s.vms[k].Pending?)
  }

  /** What a VM may end with: only a cancelled context skips, and a runner that checks it cannot succeed then. */
  predicate MayEnd(config: Config, cancelled: bool, wish: Stage) {
    match wish
    case Skipped => cancelled
    case Ended(ok) => config.guarded && cancelled ==> !ok
    case _ => false
  }

  lemma Extend(s: State, a: Action, config: Config, n: nat) returns (t: State)
    requires Reachable(s, config, n) && Enabled(s, a)
    ensures t == Apply(s, a) && Reachable(t, config, n)
  {
    t := Apply(s, a);
    var actions :| Run(Init(config, n), actions) && After(Init(config, n), actions) == s;
    RunExtends(Init(config, n), actions, a);
  }

  lemma {:induction false} RunExtends(s: State, actions: seq<Action>, a: Action)
    requires Run(s, actions) && Enabled(After(s, actions), a)
    ensures Run(s, actions + [a]) && After(s, actions + [a]) == Apply(After(s, actions), a)
    decreases |actions|
  {
    if actions == [] {
      assert actions + [a] == [a] && [a][1..] == [];
    } else {
      RunExtends(Apply(s, actions[0]), actions[1..], a);
      assert (actions + [a])[1..] == actions[1..] + [a];
    }
  }

  /** Only VM i has moved on from a served state. */
  ghost predicate Around(s: State, config: Config, wished: seq<Stage>, i: nat, cancelled: bool) {
    && s.config == config && |s.vms| == |wished| && i < |wished|
    && !s.returned && s.cancelled == cancelled
    && (forall k :: 0 <= k < i ==> s.vms[k] == wished[k])
    && (forall k :: i < k < |wished| ==> s.vms[k].Pending?)
  }

  /** A step of VM i. */
  lemma Moves(s: State, a: Action, config: Config, wished: seq<Stage>, i: nat, cancelled: bool) returns (t: State)
    requires Reachable(s, config, |wished|) && Around(s, config, wished, i, cancelled)
    requires Enabled(s, a) && Subject(s, a) == Some(i)
    ensures t == Apply(s, a) && Reachable(t, config, |wished|) && Around(t, config, wished, i, cancelled)
  {
    t := Extend(s, a, config, |wished|);
    OnlySubject(s, a, i);
  }

  lemma OnlySubject(s: State, a: Action, i: nat)
    requires Enabled(s, a) && Subject(s, a) == Some(i)
    ensures
      var t := Apply(s, a);
      && t.config == s.config && t.returned == s.returned && t.cancelled == s.cancelled && |t.vms| == |s.vms|
      && forall k :: 0 <= k < |s.vms| && k != i ==> t.vms[k] == s.vms[k]
  {
  }

  /** From the wish to record an error to the end of the critical section. */
  lemma Records(s: State, config: Config, wished: seq<Stage>, i: nat, cancelled: bool) returns (t: State)
    requires Reachable(s, config, |wished|) && Around(s, config, wished, i, cancelled)
    requires SectionOf(s.vms[i]) == Some(Want) && s.mutex.None?
    ensures Reachable(t, config, |wished|) && Around(t, config, wished, i, cancelled)
    ensures t.slots == s.slots && t.waiting == s.waiting && t.mutex.None?
    ensures if s.vms[i].Skipping? then t.vms[i] == Skipped && t.next == s.next + 1
            else t.vms[i] == Releasing(false) && t.next == s.next
  {
    t := LocksAndReads(s, config, wished, i, cancelled);
    t := WritesAndUnlocks(t, config, wished, i, cancelled);
  }

  lemma LocksAndReads(s: State, config: Config, wished: seq<Stage>, i: nat, cancelled: bool) returns (t: State)
    requires Reachable(s, config, |wished|) && Around(s, config, wished, i, cancelled)
    requires SectionOf(s.vms[i]) == Some(Want) && s.mutex.None?
    ensures Reachable(t, config, |wished|) && Around(t, config, wished, i, cancelled)
    ensures t.slots == s.slots && t.waiting == s.waiting && t.next == s.next
    ensures t.vms[i] == Move(s.vms[i], Read(s.errs))
  {
    t := Moves(s, Lock(i), config, wished, i, cancelled);
    t := Moves(t, ReadErrors(i), config, wished, i, cancelled);
  }

  lemma WritesAndUnlocks(s: State, config: Config, wished: seq<Stage>, i: nat, cancelled: bool) returns (t: State)
    requires Reachable(s, config, |wished|) && Around(s, config, wished, i, cancelled)
    requires SectionOf(s.vms[i]).Some? && SectionOf(s.vms[i]).value.Read?
    ensures Reachable(t, config, |wished|) && Around(t, config, wished, i, cancelled)
    ensures t.slots == s.slots && t.waiting == s.waiting && t.mutex.None?
    ensures if s.vms[i].Skipping? then t.vms[i] == Skipped && t.next == s.next + 1
            else t.vms[i] == Releasing(false) && t.next == s.next
  {
    t := Moves(s, WriteErrors(i), config, wished, i, cancelled);
    t := Moves(t, Unlock(i), config, wished, i, cancelled);
  }

  /** A launched runner that is called and returns. */
  lemma Runs(s: State, config: Config, wished: seq<Stage>, i: nat, cancelled: bool, ok: bool) returns (t: State)
    requires Reachable(s, config, |wished|) && Around(s, config, wished, i, cancelled) && s.vms[i].Spawned?
    requires MayEnd(config, cancelled, Ended(ok))
    ensures Reachable(t, config, |wished|) && Around(t, config, wished, i, cancelled)
    ensures t.vms[i] == if ok then Releasing(true) else Failing(Want)
    ensures t.next == s.next && t.slots == s.slots && t.waiting == s.waiting && t.mutex == s.mutex
  {
    t := Moves(s, Call(i), config, wished, i, cancelled);
    if config.guarded && cancelled {
      t := Moves(t, CheckFails(i), config, wished, i, cancelled);
    } else {
      if config.guarded {
        t := Moves(t, CheckPasses(i), config, wished, i, cancelled);
        t := Moves(t, Begin(i), config, wished, i, cancelled);
      }
      t := Moves(t, Return(i, ok), config, wished, i, cancelled);
    }
  }

  lemma Launches(s: State, config: Config, wished: seq<Stage>, i: nat, cancelled: bool) returns (t: State)
    requires Reachable(s, config, |wished|) && Around(s, config, wished, i, cancelled)
    requires config.parallelism >= 1 && s.slots == 0 && s.next == i && s.vms[i].Pending?
    ensures Reachable(t, config, |wished|) && Around(t, config, wished, i, cancelled)
    ensures t.vms[i].Spawned? && t.next == i + 1 && t.slots == 1 && t.waiting == s.waiting + 1 && t.mutex == s.mutex
  {
    t := Moves(s, Acquire, config, wished, i, cancelled);
    t := Moves(t, Spawn, config, wished, i, cancelled);
  }

  lemma Finishes(s: State, config: Config, wished: seq<Stage>, i: nat, cancelled: bool) returns (t: State)
    requires Reachable(s, config, |wished|) && Around(s, config, wished, i, cancelled)
    requires s.vms[i].Releasing? && s.slots == 1 && s.waiting == 1
    ensures Reachable(t, config, |wished|) && Around(t, config, wished, i, cancelled)
    ensures t.vms[i] == Ended(s.vms[i].ok) && t.next == s.next && t.slots == 0 && t.waiting == 0 && t.mutex == s.mutex
  {
    t := Moves(s, Release(i), config, wished, i, cancelled);
    t := Moves(t, Done(i), config, wished, i, cancelled);
  }

  lemma Serves(s: State, config: Config, wished: seq<Stage>, i: nat, cancelled: bool) returns (t: State)
    requires Reachable(s, config, |wished|) && ServedUpTo(s, config, wished, i, cancelled) && i < |wished|
    requires config.parallelism >= 1 && MayEnd(config, cancelled, wished[i])
    ensures Reachable(t, config, |wished|) && ServedUpTo(t, config, wished, i + 1, cancelled)
  {
    if wished[i].Skipped? {
      t := Moves(s, SeeCancel, config, wished, i, cancelled);
      t := Records(t, config, wished, i, cancelled);
    } else {
      t := Launches(s, config, wished, i, cancelled);
      t := Runs(t, config, wished, i, cancelled, wished[i].ok);
      if !wished[i].ok {
        t := Records(t, config, wished, i, cancelled);
      }
      t := Finishes(t, config, wished, i, cancelled);
    }
  }

  lemma {:induction false} ServesUpTo(config: Config, wished: seq<Stage>, i: nat, cancelled: bool) returns (s: State)
    requires config.parallelism >= 1 && i <= |wished|
    requires forall k :: 0 <= k < |wished| ==> MayEnd(config, cancelled, wished[k])
    ensures Reachable(s, config, |wished|) && ServedUpTo(s, config, wished, i, cancelled)
  {
    if i == 0 {
      s := Init(config, |wished|);
      assert Run(s, []) && After(s, []) == s;
      if cancelled {
        s := Extend(s, Cancel, config, |wished|);
      }
    } else {
      s := ServesUpTo(config, wished, i - 1, cancelled);
      s := Serves(s, config, wished, i - 1, cancelled);
    }
  }

  /**
   The scheduler prejudges nothing: with a slot, every combination of successes and failures is
   the result of some run, and after a cancellation every combination with skipped VMs too,
   except that a runner checking its context cannot succeed then.
   */
  lemma EveryOutcomePossible(config: Config, wished: seq<Stage>, cancelled: bool) returns (s: State)
    requires config.parallelism >= 1
    requires forall k :: 0 <= k < |wished| ==> MayEnd(config, cancelled, wished[k])
    ensures Reachable(s, config, |wished|) && s.returned && s.cancelled == cancelled && s.vms == wished
  {
    s := ServesUpTo(config, wished, |wished|, cancelled);
    s := Extend(s, Finish, config, |wished|);
  }

  // ----- Cancellation

  /** After a cancellation only builds whose context check had already passed still begin. */
  lemma {:induction false} CancelStopsBuilds(s: State, actions: seq<Action>)
    requires Inv(s) && Run(s, actions) && s.cancelled && s.config.guarded
    ensures
      var s' := After(s, actions);
      && s.began <= s'.began
      && |s'.vms| == |s.vms|
      && (forall k :: |s.began| <= k < |s'.began| ==> s'.began[k] < |s.vms| && s.vms[s'.began[k]].Passed?)
      && (forall i :: 0 <= i < |s.vms| && s'.vms[i].Passed? ==> s.vms[i].Passed?)
    decreases |actions|
  {
    if actions != [] {
      var s' := Apply(s, actions[0]);
      StepInv(s, actions[0]);
      CancelledStep(s, actions[0]);
      CancelStopsBuilds(s', actions[1..]);
      assert After(s, actions) == After(s', actions[1..]);
      var t := After(s, actions);
      forall k | |s.began| <= k < |t.began|
        ensures t.began[k] < |s.vms| && s.vms[t.began[k]].Passed?
      {
        if k < |s'.began| { assert t.began[k] == s'.began[k]; }
      }
    }
  }

  lemma CancelledStep(s: State, a: Action)
    requires Enabled(s, a) && s.cancelled && s.config.guarded
    ensures
      var s' := Apply(s, a);
      && s'.cancelled && |s'.vms| == |s.vms|
      && (forall i :: 0 <= i < |s.vms| && s'.vms[i].Passed? ==> s.vms[i].Passed?)
      && (s'.began == s.began
          || exists i :: 0 <= i < |s.vms| && s.vms[i].Passed? && s'.began == s.began + [i])
  {
    if a.Begin? {
      assert s.vms[a.vm].Passed? && Apply(s, a).began == s.began + [a.vm];
    }
  }

  lemma SpawnAfterCancel(s: State, i: nat) returns (actions: seq<Action>)
    requires Inv(s) && s.cancelled && s.config.parallelism >= 1
    requires i < |s.vms| && (s.vms[i].Pending? || s.vms[i].Granted?)
    ensures Run(s, actions + [Spawn])
    decreases Measure(s) + 1
  {
    if s.next < |s.vms| && s.vms[s.next].Granted? {
      assert !s.returned;
      RunPrepend(s, Spawn, []);
      actions := [];
      assert actions + [Spawn] == [Spawn] + [];
    } else {
      var a := UndecidedProgress(s, i);
      MeasureDecreases(s, a);
      MeasureNonNegative(Apply(s, a));
      actions := SpawnAfterCancel(Apply(s, a), i);
      actions := PrependedSpawn(s, a, actions);
    }
  }

  lemma PrependedSpawn(s: State, a: Action, rest: seq<Action>) returns (actions: seq<Action>)
    requires Enabled(s, a) && Run(Apply(s, a), rest + [Spawn])
    ensures Run(s, actions + [Spawn])
  {
    RunPrepend(s, a, rest + [Spawn]);
    actions := [a] + rest;
    assert actions + [Spawn] == [a] + (rest + [Spawn]);
  }

  lemma RunPrepend(s: State, a: Action, rest: seq<Action>)
    requires Enabled(s, a) && Run(Apply(s, a), rest)
    ensures Run(s, [a] + rest)
  {
    assert ([a] + rest)[1..] == rest;
  }

  /** While a VM is undecided and no slot is granted, a step can be taken that decides nothing against it. */
  lemma UndecidedProgress(s: State, i: nat) returns (a: Action)
    requires Inv(s) && s.cancelled && s.config.parallelism >= 1
    requires i < |s.vms| && (s.vms[i].Pending? || s.vms[i].Granted?)
    requires s.next < |s.vms| ==> !s.vms[s.next].Granted?
    ensures Enabled(s, a)
    ensures
      var s' := Apply(s, a);
      && Inv(s') && s'.cancelled && s'.config == s.config && |s'.vms| == |s.vms|
      && (s'.vms[i].Pending? || s'.vms[i].Granted?)
  {
    assert !Decided(s.vms[i]);
    a := SomeActionEnabled(s);
    StepInv(s, a);
    UndecidedStep(s, a, i);
  }

  lemma UndecidedStep(s: State, a: Action, i: nat)
    requires Enabled(s, a) && i < |s.vms|
    ensures
      var s' := Apply(s, a);
      && |s'.vms| == |s.vms|
      && (s.cancelled ==> s'.cancelled)
      && (s'.vms[i].Pending? || s'.vms[i].Granted? ==> s.vms[i].Pending? || s.vms[i].Granted?)
      && (!a.Spawn? && !a.SeeCancel? && (s.vms[i].Pending? || s.vms[i].Granted?) ==> s'.vms[i].Pending? || s'.vms[i].Granted?)
  {
  }

  lemma {:induction false} NoSpawnOnceDecided(s: State, actions: seq<Action>)
    requires Inv(s) && Run(s, actions)
    requires forall i :: 0 <= i < |s.vms| ==> !s.vms[i].Pending? && !s.vms[i].Granted?
    ensures Spawn !in actions
    decreases |actions|
  {
    if actions != [] {
      var a := actions[0];
      var s' := Apply(s, a);
      StepInv(s, a);
      forall i | 0 <= i < |s'.vms|
        ensures !s'.vms[i].Pending? && !s'.vms[i].Granted?
      {
        UndecidedStep(s, a, i);
      }
      NoSpawnOnceDecided(s', actions[1..]);
      assert actions == [a] + actions[1..];
    }
  }

  /**
   The comment above runParallelBuilds promises that no goroutine starts after cancellation.
   The select does not ensure it: in a cancelled state a further goroutine can be started
   exactly when some VM is still pending or already holds its slot.
   */
  lemma StartsAfterCancelExactly(s: State, config: Config, n: nat)
    requires Reachable(s, config, n) && s.cancelled && config.parallelism >= 1
    ensures |s.vms| == n
    ensures (exists actions :: Run(s, actions) && Spawn in actions)
       <==> (exists i :: 0 <= i < n && (s.vms[i].Pending? || s.vms[i].Granted?))
  {
    ReachableInv(s, config, n);
    if i :| 0 <= i < n && (s.vms[i].Pending? || s.vms[i].Granted?) {
      var actions := SpawnAfterCancel(s, i);
      assert Run(s, actions + [Spawn]) && Spawn in actions + [Spawn];
    }
    if actions :| Run(s, actions) && Spawn in actions {
      if forall i :: 0 <= i < n ==> !s.vms[i].Pending? && !s.vms[i].Granted? {
        NoSpawnOnceDecided(s, actions);
      }
    }
  }

  /** Such a state is as close as can be: cancelled before anything else, the loop can still start a goroutine. */
  lemma StartsAfterCancel(config: Config, n: nat) returns (s: State)
    requires config.parallelism >= 1 && n >= 1
    ensures Reachable(s, config, n) && s.cancelled
    ensures exists actions :: Run(s, actions) && Spawn in actions
  {
    var b := Init(config, n);
    assert Enabled(b, Cancel);
    s := Apply(b, Cancel);
    RunPrepend(b, Cancel, []);
    assert [Cancel] + [] == [Cancel] && [Cancel][1..] == [];
    assert After(b, [Cancel]) == After(s, []);
    assert s.vms[0].Pending?;
    StartsAfterCancelExactly(s, config, n);
  }
}
