/**
 Creating, starting, stopping and destroying a libvirt VM (pkg/deploy/linux-libvirt-deploy.go).

 Every call of an external command or of the operating system is one tick of a clock.  At each
 tick two oracles decide: whether the guest switches itself off just before it, and whether
 the call works, fails without effect, or succeeds without any output.
 */
module LibvirtLifecycle {
  import opened GoStrings
  import opened Wrappers

  datatype Weather = Works | Fails | Silent

  datatype Disk = Absent | Partial | Complete

  datatype Vm = Vm(defined: bool, running: bool, disk: Disk)

  datatype LifecycleError =
    | DiskExists | NetworkNotReady | CloneFailed | XmlFailed | TempFileFailed | DefineFailed | PreflightFailed
    | DomainMissing | InspectFailed | StartFailed | ForceStopFailed | StillRunning | UndefineFailed | RemoveFailed

  datatype TargetState = TargetState(present: bool, running: bool)

  const INITIAL := Vm(false, false, Absent)

  /** A defined domain has its complete disk, and only a defined domain runs. */
  ghost predicate Consistent(v: Vm) {
    (v.running ==> v.defined) && (v.defined ==> v.disk == Complete)
  }

  /** The outputs of `virsh domstate` for a domain that is not shut off. */
  const ACTIVE_STATES := {"running", "idle", "paused", "in shutdown", "crashed", "dying", "pmsuspended"}

  function NormalizeState(state: string): string { ToLower(TrimText(state)) }

  predicate StateIndicatesRunning(state: string) {
    NormalizeState(state) !in {"", "missing", "shut off", "shutoff", "no state"}
  }

  predicate Letter(c: char) { 'a' <= c <= 'z' }

  lemma LettersTrimmed(s: string)
    requires s != "" && Letter(s[0]) && Letter(s[|s| - 1])
    ensures TrimText(s) == s
  {
  }

  /** A state name of lower-case letters, with blanks only inside, is normal already. */
  lemma NormalStates(s: string)
    requires s != "" && Letter(s[0]) && Letter(s[|s| - 1])
    requires forall c :: c in s ==> Letter(c) || c == ' '
    ensures NormalizeState(s) == s
  {
    LettersTrimmed(s);
    forall i | 0 <= i < |s| ensures LowerChar(s[i]) == s[i] {
      assert s[i] in s;
    }
  }

  /** How an output of `virsh domstate` is read; empty output stands for the state "unknown". */
  predicate ReadsAsRunning(output: string) {
    StateIndicatesRunning(if NormalizeState(output) == "" then "unknown" else NormalizeState(output))
  }

  /** Every active state reads as running, and so does no output; "shut off" does not. */
  lemma StatesClassified(output: string)
    requires output in ACTIVE_STATES || output == "" || output == "shut off"
    ensures ReadsAsRunning(output) <==> output != "shut off"
  {
    if output != "" {
      NormalStates(output);
    } else {
      assert NormalizeState("") == "";
      NormalStates("unknown");
    }
  }

  /** The line end that virsh prints does not matter. */
  lemma LineEndIgnored(s: string)
    requires s != "" && Letter(s[0]) && Letter(s[|s| - 1])
    requires forall c :: c in s ==> Letter(c) || c == ' '
    ensures NormalizeState(s + "\n") == s && NormalizeState(s + "\n\n") == s
  {
    var one := s + "\n";
    assert one[..|one| - 1] == s;
    assert (one + "\n")[..|one|] == one && s + "\n\n" == one + "\n";
    NormalStates(s);
    assert TrimText(one) == TrimText(s) && TrimText(one + "\n") == TrimText(one);
  }

  /** Every way of saying that a domain is down reads as not running. */
  lemma DownStates(output: string)
    requires output in {"shut off", "shutoff", "no state", "missing"}
    ensures !ReadsAsRunning(output) && !ReadsAsRunning(output + "\n\n")
  {
    NormalStates(output);
    LineEndIgnored(output);
    NormalStates("unknown");
  }

  lemma ActiveIsNotShutOff(output: string)
    requires output in ACTIVE_STATES
    ensures output != "shut off"
  {
  }

  // ----- What each operation may do, as a relation between states

  /** The same machine, except that the guest may have switched itself off. */
  ghost predicate Drifted(v: Vm, v': Vm) {
    v' == v || v' == v.(running := false)
  }

  ghost predicate CreateSpec(v: Vm, v': Vm, ok: bool) {
    if ok then !v.defined && v.disk == Absent && v' == Vm(true, false, Complete)
    else if v.disk == Absent && !v.defined then !v'.defined && !v'.running
    else Drifted(v, v')
  }

  /** A start that reports success leaves the VM running, unless the answer to its inspection was lost. */
  ghost predicate StartSpec(v: Vm, v': Vm, ok: bool, heard: bool) {
    if ok then v.defined && (v' == v.(running := true) || (!heard && v' == v.(running := false)))
    else Drifted(v, v')
  }

  ghost predicate StopSpec(v: Vm, v': Vm, ok: bool) {
    if ok then v' == v.(running := false) else Drifted(v, v')
  }

  ghost predicate DestroySpec(v: Vm, v': Vm, ok: bool) {
    if ok then v' == INITIAL else Drifted(v, v') || v' == Vm(false, false, v.disk)
  }

  /** `heard` is false when `virsh domstate` printed nothing. */
  datatype Op = Create | Start(heard: bool) | Stop | Destroy | GuestQuits

  ghost predicate OpSpec(op: Op, v: Vm, v': Vm, ok: bool) {
    match op
    case Create => CreateSpec(v, v', ok)
    case Start(heard) => StartSpec(v, v', ok, heard)
    case Stop => StopSpec(v, v', ok)
    case Destroy => DestroySpec(v, v', ok)
    case GuestQuits => v' == v.(running := false)
  }

  datatype Call = Call(op: Op, ok: bool)

  /** states[k + 1] follows states[k] by calls[k]. */
  ghost predicate Run(states: seq<Vm>, calls: seq<Call>) {
    && |states| == |calls| + 1
    && states[0] == INITIAL
    && forall k :: 0 <= k < |calls| ==> OpSpec(calls[k].op, states[k], states[k + 1], calls[k].ok)
  }

  /** Whatever is called and however it fails, every state of every run is consistent. */
  lemma {:induction false} RunsStayConsistent(states: seq<Vm>, calls: seq<Call>, k: nat)
    requires Run(states, calls) && k < |states|
    ensures Consistent(states[k])
  {
    if k > 0 {
      RunsStayConsistent(states, calls, k - 1);
      assert OpSpec(calls[k - 1].op, states[k - 1], states[k], calls[k - 1].ok);
    }
  }

  /** A successful destroy undoes everything before it: the VM can be created again. */
  lemma DestroyForgets(states: seq<Vm>, calls: seq<Call>, k: nat)
    requires Run(states, calls) && k < |calls| && calls[k] == Call(Destroy, true)
    ensures states[k + 1] == INITIAL
    ensures Run(states[k + 1..], calls[k + 1..])
  {
    assert OpSpec(calls[k].op, states[k], states[k + 1], calls[k].ok);
    var later, laterCalls := states[k + 1..], calls[k + 1..];
    forall j | 0 <= j < |laterCalls|
      ensures OpSpec(laterCalls[j].op, later[j], later[j + 1], laterCalls[j].ok)
    {
      var m := k + 1 + j;
      assert OpSpec(calls[m].op, states[m], states[m + 1], calls[m].ok);
    }
  }

  /** Only a create that succeeds brings a domain into being, only a destroy removes one. */
  lemma {:induction false} DefinedSinceCreate(states: seq<Vm>, calls: seq<Call>, k: nat) returns (c: nat)
    requires Run(states, calls) && k < |states| && states[k].defined
    ensures c < k && calls[c] == Call(Create, true)
    ensures forall j :: c < j < k ==> calls[j] != Call(Destroy, true) && states[j].defined
  {
    assert OpSpec(calls[k - 1].op, states[k - 1], states[k], calls[k - 1].ok);
    if states[k - 1].defined {
      c := DefinedSinceCreate(states, calls, k - 1);
    } else {
      c := k - 1;
    }
  }

  // ----- The operations

  class Host {
    const weather: nat -> Weather
    const quits: nat -> bool
    const polls: nat -> nat   // inspections that fit into the stop timeout, by the tick the wait begins at
    var clock: nat
    var vm: Vm

    constructor (weather: nat -> Weather, quits: nat -> bool, polls: nat -> nat)
      ensures vm == INITIAL && clock == 0
      ensures this.weather == weather && this.quits == quits && this.polls == polls
    {
      this.weather, this.quits, this.polls := weather, quits, polls;
      clock, vm := 0, INITIAL;
    }

    ghost predicate Valid()
      reads this
    {
      Consistent(vm)
    }

    /** No call between two ticks failed on its own account. */
    ghost predicate Calm(from: nat, to: nat) {
      forall k :: from <= k < to ==> weather(k) == Works
    }

    ghost predicate Quiet(from: nat, to: nat) {
      forall k :: from <= k < to ==> !quits(k)
    }

    function AtTick(v: Vm, k: nat): Vm { if quits(k) then v.(running := false) else v }

    /** One external call: time passes for the guest, then the call has its luck. */
    method Tick() returns (luck: Weather)
      modifies this
      ensures clock == old(clock) + 1 && luck == weather(old(clock))
      ensures vm == AtTick(old(vm), old(clock))
    {
      vm := AtTick(vm, clock);
      luck := weather(clock);
      clock := clock + 1;
    }

    method RemoveDisk() returns (ok: bool)
      modifies this
      ensures clock == old(clock) + 1
      ensures ok <==> weather(old(clock)) != Fails
      ensures vm == if ok then AtTick(old(vm), old(clock)).(disk := Absent) else AtTick(old(vm), old(clock))
    {
      var luck := Tick();
      ok := luck != Fails;
      if ok {
        vm := vm.(disk := Absent);
      }
    }

    /** `virsh domstate` and its interpretation; empty output reads as the state "unknown". */
    method Inspect() returns (r: Result<TargetState, LifecycleError>)
      modifies this
      ensures clock == old(clock) + 1 && vm == AtTick(old(vm), old(clock))
      ensures weather(old(clock)) == Works ==> r == Ok(TargetState(vm.defined, vm.defined && vm.running))
      ensures r.Ok? && weather(old(clock)) != Silent ==> r.value == TargetState(vm.defined, vm.defined && vm.running)
      ensures r.Ok? && !r.value.present ==> !vm.defined
      ensures r.Ok? && r.value.present && !r.value.running ==> vm.defined && !vm.running
      ensures r.Ok? && r.value.present ==> vm.defined
      ensures r.Ok? && r.value.present ==> (r.value.running <==> weather(old(clock)) == Silent || vm.running)
      ensures r.Ok? && !vm.defined ==> !r.value.present
      ensures r.Ok? <==> weather(old(clock)) != Fails
      ensures r.Err? ==> r.error == InspectFailed
    {
      var luck := Tick();
      if luck == Fails {
        return Err(InspectFailed);
      }
      if !vm.defined {
        return Ok(TargetState(false, false));
      }
      var running := ReadDomainState(luck);
      return Ok(TargetState(true, running));
    }

    /** What `virsh domstate` prints for an existing domain, and how that is read. */
    method ReadDomainState(luck: Weather) returns (running: bool)
      ensures running <==> luck == Silent || vm.running
    {
      var output := "";
      if luck != Silent && vm.running {
        output :| output in ACTIVE_STATES;
        ActiveIsNotShutOff(output);
      } else if luck != Silent {
        output := "shut off";
      }
      StatesClassified(output);
      running := ReadsAsRunning(output);
    }

    /** No external call between two ticks fails after another one has. */
    ghost predicate AtMostOneFails(from: nat, to: nat) {
      forall j, k :: from <= j < k < to && weather(j) != Works ==> weather(k) == Works
    }

    /** From tick i on: preflight, stat, network, clone, XML, temporary file and definition all work. */
    ghost predicate DeploySucceeds(i: nat) {
      && weather(i) != Fails && weather(i + 1) != Fails && weather(i + 2) == Works && weather(i + 3) != Fails
      && weather(i + 4) == Works && weather(i + 5) != Fails && weather(i + 6) != Fails
    }

    /**
     What a failed create that began at tick i leaves of the disk.  Up to the clone nothing is
     touched; a failed clone may leave a part; whatever fails later, the clone is removed again
     by the very next call, and stays only if that removal fails.
     */
    ghost predicate DeployLeaves(i: nat, disk: Disk, err: LifecycleError)
      reads this
    {
      match err
      case CloneFailed => disk == Absent && vm.disk != Complete && clock == i + 4
      case XmlFailed => disk == Absent && RemovedAt(i + 5)
      case TempFileFailed => disk == Absent && RemovedAt(i + 6)
      case DefineFailed => disk == Absent && RemovedAt(i + 7)
      case DiskExists => disk != Absent && vm.disk == disk
      case NetworkNotReady => vm.disk == disk == Absent
      case _ => vm.disk == disk
    }

    ghost predicate RemovedAt(k: nat)
      reads this
    {
      clock == k + 1 && vm.disk == if weather(k) == Fails then Complete else Absent
    }

    method RunDeploy() returns (err: Option<LifecycleError>)
      requires Valid()
      modifies this
      ensures Valid() && clock > old(clock)
      ensures CreateSpec(old(vm), vm, err.None?)
      ensures Calm(old(clock), clock) ==> (err.None? <==> old(vm).disk == Absent)
      ensures err.None? ==> clock == old(clock) + 7
      ensures err.None? <==> old(vm).disk == Absent && DeploySucceeds(old(clock))
      ensures err.Some? ==> DeployLeaves(old(clock), old(vm).disk, err.value)
      ensures err.Some? && err != Some(CloneFailed) && AtMostOneFails(old(clock), clock) ==> vm.disk == old(vm).disk
    {
      var luck := Tick();      // commands in PATH, artifact present, image directory usable
      if luck == Fails {
        return Some(PreflightFailed);
      }
      luck := Tick();          // stat of the managed disk
      if luck == Fails {
        return Some(PreflightFailed);
      }
      if vm.disk != Absent {
        return Some(DiskExists);
      }
      luck := Tick();          // virsh net-info
      if luck != Works {
        return Some(NetworkNotReady);
      }
      luck := Tick();          // qemu-img convert
      if luck == Fails {
        var partial: bool := *;
        vm := vm.(disk := if partial then Partial else Absent);
        return Some(CloneFailed);
      }
      vm := vm.(disk := Complete);
      err := DefineClone();
    }

    /** Describes the cloned disk as a domain and defines it; any failure removes the clone. */
    method DefineClone() returns (err: Option<LifecycleError>)
      requires Valid() && !vm.defined && vm.disk == Complete
      modifies this
      ensures err.None? ==> vm == Vm(true, false, Complete) && clock == old(clock) + 3
      ensures err.None? <==>
                var i := old(clock);
                weather(i) == Works && weather(i + 1) != Fails && weather(i + 2) != Fails
      ensures err.Some? ==> !vm.defined && !vm.running && clock <= old(clock) + 4
      ensures err.Some? ==>
                match err.value {
                  case XmlFailed => weather(old(clock)) != Works && RemovedAt(old(clock) + 1)
                  case TempFileFailed => weather(old(clock) + 1) == Fails && RemovedAt(old(clock) + 2)
                  case DefineFailed => weather(old(clock) + 2) == Fails && RemovedAt(old(clock) + 3)
                  case _ => false
                }
    {
      var luck := Tick();      // virt-install --print-xml
      if luck != Works {
        var removed := RemoveDisk();
        return Some(XmlFailed);
      }
      luck := Tick();          // temporary file created, written, closed
      if luck == Fails {
        var removed := RemoveDisk();
        return Some(TempFileFailed);
      }
      luck := Tick();          // virsh define
      if luck == Fails {
        var removed := RemoveDisk();
        return Some(DefineFailed);
      }
      vm := vm.(defined := true);
      return None;
    }

    /**
     From tick i on, for an existing domain: its inspection reads as running, because it runs or
     because the answer is lost, or the network is ready and the start command works.
     */
    ghost predicate StartSucceeds(i: nat, running: bool) {
      && weather(i) != Fails
      && (weather(i) == Silent || (running && !quits(i)) || (weather(i + 1) == Works && weather(i + 2) != Fails))
    }

    /** Reports success although the VM does not run exactly when the inspection of a VM not running lost its answer. */
    method RunStart() returns (err: Option<LifecycleError>)
      requires Valid()
      modifies this
      ensures Valid() && clock > old(clock)
      ensures StartSpec(old(vm), vm, err.None?, weather(old(clock)) != Silent)
      ensures err.None? <==> old(vm).defined && StartSucceeds(old(clock), old(vm).running)
      ensures err.None? ==> (vm.running <==> !(weather(old(clock)) == Silent && !(old(vm).running && !quits(old(clock)))))
      ensures Calm(old(clock), clock) ==> (err.None? <==> old(vm).defined)
    {
      var state := Inspect();
      if state.Err? {
        return Some(state.error);
      }
      if !state.value.present {
        return Some(DomainMissing);
      }
      if state.value.running {
        return None;
      }
      var luck := Tick();      // virsh net-info
      if luck != Works {
        return Some(NetworkNotReady);
      }
      luck := Tick();          // virsh start
      if luck == Fails || vm.running {
        return Some(StartFailed);
      }
      vm := vm.(running := true);
      return None;
    }

    /** Polls until the guest is seen stopped or the time is up, then looks once more. */
    method WaitForStop() returns (r: Result<bool, LifecycleError>)
      requires Valid()
      modifies this
      ensures Valid() && clock > old(clock) && Drifted(old(vm), vm)
      ensures r == Ok(true) ==> !vm.running
      ensures r.Err? ==> weather(clock - 1) == Fails && r.error == InspectFailed
      ensures r == Ok(false) ==> clock == old(clock) + polls(old(clock)) + 1 && (weather(clock - 1) == Silent || vm.running)
      ensures Calm(old(clock), clock) ==> r.Ok? && (r.value <==> !vm.running)
      ensures r == Ok(false) && Calm(old(clock), clock) ==>
                clock == old(clock) + polls(old(clock)) + 1 && Quiet(old(clock), clock)
      ensures r == Ok(true) && Calm(old(clock), clock) && old(vm).running ==>
                clock <= old(clock) + polls(old(clock)) + 1 && !Quiet(old(clock), clock)
    {
      var start := clock;
      for k := 0 to polls(start)
        invariant Valid() && clock == start + k && Drifted(old(vm), vm)
        invariant Calm(start, clock) ==> (vm.running <==> old(vm).running && Quiet(start, clock))
        invariant Calm(start, clock) && k > 0 ==> vm.running
      {
        var state := Inspect();
        if state.Err? {
          return Err(state.error);
        }
        if !state.value.present || !state.value.running {
          return Ok(true);
        }
      }
      var state := Inspect();
      if state.Err? {
        return Err(state.error);
      }
      return Ok(!state.value.present || !state.value.running);
    }

    /**
     Counting from the inspection at tick i: the guest goes down by itself exactly before the
     shutdown request, or exactly before the forced stop that follows a wait without success.
     Then the forced stop finds nothing to stop and fails.
     */
    ghost predicate StopRaces(i: nat) {
      || (Quiet(i, i + 1) && quits(i + 1))
      || (Quiet(i, ForcedStop(i)) && quits(ForcedStop(i)))
    }

    function ForcedStop(i: nat): nat { i + 3 + polls(i + 2) }

    /**
     Why a stop that began at tick i failed.  A failed shutdown request or a failed wait is no
     reason: then the guest is stopped by force, and only a failure of that, or of the
     verification after it, counts.
     */
    ghost predicate StopFailure(i: nat, err: LifecycleError)
      reads this
    {
      match err
      case InspectFailed => clock > i && weather(clock - 1) == Fails && (clock == i + 1 || (clock > i + 3 && !vm.running))
      case ForceStopFailed => clock >= i + 3 && (weather(clock - 1) == Fails || !vm.running)
      case StillRunning => clock > i + 3 && weather(clock - 1) == Silent && !vm.running
      case _ => false
    }

    method RunStop() returns (err: Option<LifecycleError>)
      requires Valid()
      modifies this
      ensures Valid() && clock > old(clock)
      ensures StopSpec(old(vm), vm, err.None?)
      ensures Calm(old(clock), clock) ==> !vm.running
      ensures Calm(old(clock), clock) ==> (err.None? <==> !(old(vm).running && StopRaces(old(clock))))
      ensures err.Some? ==> StopFailure(old(clock), err.value)
    {
      var state := Inspect();
      if state.Err? {
        return Some(state.error);
      }
      if !state.value.present || !state.value.running {
        return None;
      }
      var stopped := AskToStop();
      if stopped {
        return None;
      }
      err := ForceStop();
    }

    /** The shutdown request and the wait for its effect. */
    method AskToStop() returns (stopped: bool)
      requires Valid()
      modifies this
      ensures Valid() && clock > old(clock) && Drifted(old(vm), vm)
      ensures stopped ==> !vm.running
      ensures Calm(old(clock), clock) && !(old(vm).running && !quits(old(clock))) ==> !stopped && clock == old(clock) + 1 && !vm.running
      ensures Calm(old(clock), clock) && old(vm).running && !quits(old(clock)) ==>
                var forced := old(clock) + 2 + polls(old(clock) + 1);
                (stopped <==> !Quiet(old(clock), forced)) && (!stopped ==> clock == forced && vm.running)
      ensures Calm(old(clock), clock) && stopped ==> clock <= old(clock) + 2 + polls(old(clock) + 1)
    {
      var luck := Tick();      // virsh shutdown: only a running domain can be asked
      if luck == Fails || !vm.running {
        return false;
      }
      var waited := WaitForStop();
      return waited == Ok(true);
    }

    /** The forced stop and its verification. */
    method ForceStop() returns (err: Option<LifecycleError>)
      requires Valid()
      modifies this
      ensures Valid() && clock > old(clock)
      ensures StopSpec(old(vm), vm, err.None?)
      ensures Calm(old(clock), clock) ==> !vm.running && (err.None? <==> old(vm).running && !quits(old(clock)))
      ensures err == Some(ForceStopFailed) ==> clock == old(clock) + 1 && (weather(old(clock)) == Fails || !vm.running)
      ensures err.Some? && err != Some(ForceStopFailed) ==> clock > old(clock) + 1 && !vm.running
      ensures err == Some(InspectFailed) ==> weather(clock - 1) == Fails
      ensures err == Some(StillRunning) ==> weather(clock - 1) == Silent
      ensures err in {None, Some(ForceStopFailed), Some(InspectFailed), Some(StillRunning)}
    {
      var luck := Tick();      // virsh destroy: only a running domain can be stopped
      if luck == Fails || !vm.running {
        return Some(ForceStopFailed);
      }
      vm := vm.(running := false);
      var stopped := WaitForStop();
      if stopped.Err? {
        return Some(stopped.error);
      }
      return if stopped.value then None else Some(StillRunning);
    }

    /** Undefines with all metadata, or failing that without. */
    method Undefine() returns (ok: bool)
      requires Valid() && !vm.running
      modifies this
      ensures Valid() && clock > old(clock)
      ensures vm == if ok then old(vm).(defined := false) else old(vm)
      ensures ok <==> weather(old(clock)) != Fails || weather(old(clock) + 1) != Fails
      ensures clock == old(clock) + if weather(old(clock)) == Fails then 2 else 1
    {
      var luck := Tick();      // virsh undefine with all metadata
      if luck == Fails {
        luck := Tick();        // virsh undefine
        if luck == Fails {
          return false;
        }
      }
      vm := vm.(defined := false);
      return true;
    }

    /** The race of RunStop as seen from the inspection that RunDestroy makes first. */
    ghost predicate DestroyRaces(i: nat) { Quiet(i, i + 1) && StopRaces(i + 1) }

    /** Why a destroy that began at tick i failed: one of its inspections, the stop, both ways to undefine, or the removal of the disk. */
    ghost predicate DestroyFailure(i: nat, err: LifecycleError)
      reads this
    {
      match err
      case InspectFailed => clock > i && weather(clock - 1) == Fails && (clock == i + 1 || StopFailure(i + 1, err))
      case UndefineFailed => clock >= i + 3 && weather(clock - 2) == Fails && weather(clock - 1) == Fails && !vm.running
      case RemoveFailed => clock > i && weather(clock - 1) == Fails && !vm.defined
      case _ => StopFailure(i + 1, err)
    }

    /**
     Without faults a destroy fails only by losing the race, and then leaves a stopped VM that
     the next calm destroy removes.
     */
    method RunDestroy() returns (err: Option<LifecycleError>)
      requires Valid()
      modifies this
      ensures Valid() && clock > old(clock)
      ensures DestroySpec(old(vm), vm, err.None?)
      ensures Calm(old(clock), clock) ==> (err.None? <==> !(old(vm).running && DestroyRaces(old(clock))))
      ensures err.Some? ==> DestroyFailure(old(clock), err.value)
      ensures Calm(old(clock), clock) ==> !vm.running
    {
      var state := Inspect();
      if state.Err? {
        return Some(state.error);
      }
      if state.value.present {
        if state.value.running {
          err := RunStop();
          if err.Some? {
            return;
          }
        }
        var undefined := Undefine();
        if !undefined {
          return Some(UndefineFailed);
        }
      }
      var removed := RemoveDisk();
      return if removed then None else Some(RemoveFailed);
    }
  }

  /** The race is real: a guest that goes down right before the shutdown request loses a destroy that nothing else disturbs. */
  lemma RaceHappens(host: Host, i: nat)
    requires forall k :: host.quits(k) <==> k == i + 2
    ensures host.DestroyRaces(i)
    ensures !host.DestroyRaces(i + 3)
  {
    assert host.quits(i + 2);
  }

  /**
   The lost answer is real: on a host where nothing else ever goes wrong and no guest switches
   itself off, a VM is created, its start reports success, and it does not run.
   */
  method LostAnswerStartsNothing() returns (host: Host, created: Option<LifecycleError>, started: Option<LifecycleError>)
    ensures forall k :: host.weather(k) == (if k == 7 then Silent else Works) && !host.quits(k)
    ensures created.None? && started.None? && host.vm == Vm(true, false, Complete)
  {
    host := new Host(k => if k == 7 then Silent else Works, k => false, k => 1);
    created := host.RunDeploy();
    started := host.RunStart();
  }
}
