/** scheduler.cc: run() or run_busy() starting up and looping on one thread, again after it has returned, any number of
    request_stop() and reset_stop() calls on others, and work submissions that notify the same AdaptiveIdle at arbitrary
    moments. */
module StopHandshake {
  import I = AdaptiveIdle

  datatype RunnerAt = RStart | RCheck | RLoop | RBody | RIdle | RExited

  datatype StopperAt = SFlag | SRunning | SLock | SWrite | SOne | SReturned

  /** One request_stop call; `undone` is history: a reset_stop has come after its first store. */
  datatype Stopper = Stopper(at: StopperAt, undone: bool)

  /** `busy` selects run_busy, which never idles; `iterations` counts the loop bodies started. */
  datatype State = State(busy: bool, stopRequested: bool, running: bool, idle: I.Idle,
                         runner: RunnerAt, iterations: nat, stoppers: seq<Stopper>)

  datatype Action =
    | RunRunner(goIdle: bool, flag: bool)
    | RunStopper(k: nat)
    | ResetStop
    | SpuriousWake
    | OtherLock
    | OtherWrite
    | OtherOne

  function RunnerStep(s: State, goIdle: bool, flag: bool): State {
    match s.runner
    case RStart => s.(running := true, runner := RCheck)
    case RCheck =>
      if !s.stopRequested then s.(runner := RLoop)
      else if s.busy then s.(running := false, runner := RExited)
      else s.(running := false, runner := RExited, idle := I.NotifyOne(I.NotifyWrite(I.NotifyLock(s.idle))))
    case RLoop => if s.running then s.(runner := RBody, iterations := s.iterations + 1) else s.(runner := RExited)
    case RBody =>
      if goIdle && !s.busy then s.(runner := RIdle, idle := I.Enter(s.idle)) else s.(runner := RLoop)
    case RIdle =>
      var idle := I.OwnerStep(s.idle, flag);
      s.(idle := idle, runner := if idle.at.Outside? then RLoop else RIdle)
    case RExited => s.(runner := RStart)
  }

  function Moved(s: State, k: nat, at: StopperAt): seq<Stopper>
    requires k < |s.stoppers|
  {
    s.stoppers[k := s.stoppers[k].(at := at)]
  }

  function StopperStep(s: State, k: nat): State
    requires k < |s.stoppers|
  {
    match s.stoppers[k].at
    case SFlag => s.(stopRequested := true, stoppers := Moved(s, k, SRunning))
    case SRunning => s.(running := false, stoppers := Moved(s, k, SLock))
    case SLock => s.(idle := I.NotifyLock(s.idle), stoppers := Moved(s, k, SWrite))
    case SWrite => s.(idle := I.NotifyWrite(s.idle), stoppers := Moved(s, k, SOne))
    case SOne => s.(idle := I.NotifyOne(s.idle), stoppers := Moved(s, k, SReturned))
    case SReturned => s
  }

  function Reset(s: State): State {
    s.(stopRequested := false,
       stoppers := seq(|s.stoppers|, k requires 0 <= k < |s.stoppers| =>
         s.stoppers[k].(undone := s.stoppers[k].undone || !s.stoppers[k].at.SFlag?)))
  }

  function Step(s: State, a: Action): State {
    match a
    case RunRunner(goIdle, flag) => RunnerStep(s, goIdle, flag)
    case RunStopper(k) => if k < |s.stoppers| then StopperStep(s, k) else s
    case ResetStop => Reset(s)
    case SpuriousWake => s.(idle := I.Wake(s.idle))
    case OtherLock => s.(idle := I.NotifyLock(s.idle))
    case OtherWrite => s.(idle := I.NotifyWrite(s.idle))
    case OtherOne => s.(idle := I.NotifyOne(s.idle))
  }

  function Init(busy: bool, stopperCount: nat): State {
    State(busy, false, false, I.FRESH, RStart, 0, seq(stopperCount, _ => Stopper(SFlag, false)))
  }

  function Exec(s: State, run: seq<Action>): State {
    if run == [] then s else Step(Exec(s, run[..|run| - 1]), run[|run| - 1])
  }

  /** What a request_stop that has got as far as `at` has achieved. */
  predicate Achieved(s: State, at: StopperAt) {
    && (!at.SFlag? ==> s.stopRequested)
    && (!at.SFlag? && !at.SRunning? && s.running ==> s.runner.RCheck?)
    && (at.SWrite? || at.SOne? || at.SReturned? ==> s.runner.RBody? || s.runner.RIdle? ==> I.WakeDue(s.idle))
    && (at.SReturned? ==> !s.idle.at.Waiting?)
  }

  predicate StopperOk(s: State, k: nat)
    requires k < |s.stoppers|
  {
    s.stoppers[k].undone || Achieved(s, s.stoppers[k].at)
  }

  predicate Inv(s: State) {
    && I.Ok(s.idle)
    && (s.runner.RIdle? <==> !s.idle.at.Outside?)
    && (s.runner.RStart? || s.runner.RExited? ==> !s.running)
    && forall k :: 0 <= k < |s.stoppers| ==> StopperOk(s, k)
  }

  lemma RunnerKept(s: State, goIdle: bool, flag: bool)
    requires Inv(s)
    ensures Inv(RunnerStep(s, goIdle, flag))
  {
    var s' := RunnerStep(s, goIdle, flag);
    I.StepsKeepOk(s.idle, flag);
    forall k | 0 <= k < |s'.stoppers|
      ensures StopperOk(s', k)
    {
      assert StopperOk(s, k);
    }
  }

  /** The two stores of request_stop. */
  lemma StoresKept(s: State, j: nat)
    requires Inv(s) && j < |s.stoppers| && (s.stoppers[j].at.SFlag? || s.stoppers[j].at.SRunning?)
    ensures Inv(StopperStep(s, j))
  {
    var s' := StopperStep(s, j);
    assert StopperOk(s, j);
    forall k | 0 <= k < |s'.stoppers|
      ensures StopperOk(s', k)
    {
      assert StopperOk(s, k);
    }
  }

  /** Its notification: what another stopper has achieved stands. */
  lemma NotifyOthers(s: State, j: nat, k: nat)
    requires I.Ok(s.idle) && j < |s.stoppers| && !s.stoppers[j].at.SFlag? && !s.stoppers[j].at.SRunning?
    requires k < |s.stoppers| && k != j && StopperOk(s, k) && (s.runner.RIdle? <==> !s.idle.at.Outside?)
    ensures StopperOk(StopperStep(s, j), k)
  {
  }

  /** ... and its own record grows. */
  lemma NotifyOwn(s: State, j: nat)
    requires I.Ok(s.idle) && j < |s.stoppers| && !s.stoppers[j].at.SFlag? && !s.stoppers[j].at.SRunning?
    requires StopperOk(s, j) && (s.runner.RIdle? <==> !s.idle.at.Outside?)
    ensures StopperOk(StopperStep(s, j), j)
  {
  }

  lemma NotifyKept(s: State, j: nat)
    requires Inv(s) && j < |s.stoppers| && !s.stoppers[j].at.SFlag? && !s.stoppers[j].at.SRunning?
    ensures Inv(StopperStep(s, j))
  {
    var s' := StopperStep(s, j);
    I.StepsKeepOk(s.idle, false);
    forall k | 0 <= k < |s'.stoppers|
      ensures StopperOk(s', k)
    {
      assert StopperOk(s, k);
      if k == j {
        NotifyOwn(s, j);
      } else {
        NotifyOthers(s, j, k);
      }
    }
  }

  lemma StepKept(s: State, a: Action)
    requires Inv(s)
    ensures Inv(Step(s, a))
  {
    match a
    case RunRunner(goIdle, flag) => RunnerKept(s, goIdle, flag);
    case RunStopper(k) =>
      if k < |s.stoppers| {
        if s.stoppers[k].at.SFlag? || s.stoppers[k].at.SRunning? {
          StoresKept(s, k);
        } else {
          NotifyKept(s, k);
        }
      }
    case ResetStop => ResetKept(s);
    case _ => OthersKept(s, a);
  }

  lemma ResetKept(s: State)
    requires Inv(s)
    ensures Inv(Reset(s))
  {
    forall k | 0 <= k < |s.stoppers|
      ensures StopperOk(Reset(s), k)
    {
      assert StopperOk(s, k);
    }
  }

  /** Wakeups and notifications by others. */
  lemma OthersKept(s: State, a: Action)
    requires Inv(s) && (a.SpuriousWake? || a.OtherLock? || a.OtherWrite? || a.OtherOne?)
    ensures Inv(Step(s, a))
  {
    I.StepsKeepOk(s.idle, false);
    forall k | 0 <= k < |s.stoppers|
      ensures StopperOk(Step(s, a), k)
    {
      assert StopperOk(s, k);
    }
  }

  lemma {:induction false} RunKept(s: State, run: seq<Action>)
    requires Inv(s)
    ensures Inv(Exec(s, run))
  {
    if run != [] {
      RunKept(s, run[..|run| - 1]);
      StepKept(Exec(s, run[..|run| - 1]), run[|run| - 1]);
    }
  }

  /** Some request_stop has returned, and no reset_stop has come after it began. */
  predicate Returned(s: State) { exists k :: 0 <= k < |s.stoppers| && s.stoppers[k] == Stopper(SReturned, false) }

  lemma ReturnedStep(s: State, a: Action)
    requires Inv(s) && Returned(s) && !a.ResetStop?
    ensures Step(s, a).iterations == s.iterations && Returned(Step(s, a)) && !Step(s, a).idle.at.Waiting?
  {
    StepKept(s, a);
    var s' := Step(s, a);
    var k :| 0 <= k < |s.stoppers| && s.stoppers[k] == Stopper(SReturned, false);
    assert s'.stoppers[k] == Stopper(SReturned, false);
    assert StopperOk(s, k) && StopperOk(s', k);
  }

  /** Once a request_stop has returned, no later step of any run without a reset_stop starts another iteration, even if
      run is called again, and the runner is never found asleep in park. */
  lemma StopIsFinal(busy: bool, stopperCount: nat, before: seq<Action>, after: seq<Action>)
    requires Returned(Exec(Init(busy, stopperCount), before)) && forall i :: 0 <= i < |after| ==> !after[i].ResetStop?
    ensures var s := Exec(Init(busy, stopperCount), before);
            var s' := Exec(s, after);
            s'.iterations == s.iterations && Returned(s') && !s'.idle.at.Waiting?
  {
    RunKept(Init(busy, stopperCount), before);
    FinalFrom(Exec(Init(busy, stopperCount), before), after);
  }

  lemma {:induction false} FinalFrom(s: State, after: seq<Action>)
    requires Inv(s) && Returned(s) && forall i :: 0 <= i < |after| ==> !after[i].ResetStop?
    ensures var s' := Exec(s, after); s'.iterations == s.iterations && Returned(s') && !s'.idle.at.Waiting?
  {
    if after == [] {
      var k :| 0 <= k < |s.stoppers| && s.stoppers[k] == Stopper(SReturned, false);
      assert StopperOk(s, k);
    } else {
      var m := |after| - 1;
      FinalFrom(s, after[..m]);
      RunKept(s, after[..m]);
      ReturnedStep(Exec(s, after[..m]), after[m]);
    }
  }

  /** After request_stop has returned the runner needs at most the rest of its current iteration to leave the loop:
      the test at the head of the loop exits, and so does a start-up that raced with the stop. */
  lemma NextTestExits(busy: bool, stopperCount: nat, run: seq<Action>, goIdle: bool, flag: bool)
    requires Returned(Exec(Init(busy, stopperCount), run))
    ensures var s := Exec(Init(busy, stopperCount), run);
            && (s.runner.RLoop? || s.runner.RCheck? ==> RunnerStep(s, goIdle, flag).runner.RExited?)
            && (s.runner.RIdle? && !s.idle.at.Spinning? && !s.idle.at.Yielding? ==>
                  RunnerStep(s, goIdle, flag).runner.RLoop?)
  {
    RunKept(Init(busy, stopperCount), run);
    var s := Exec(Init(busy, stopperCount), run);
    var k :| 0 <= k < |s.stoppers| && s.stoppers[k] == Stopper(SReturned, false);
    assert StopperOk(s, k);
  }

  // ---- Nobody leaves without a stop -----------------------------------------------------------------------

  /** Some request_stop has made its first store. */
  predicate Begun(s: State) { exists k :: 0 <= k < |s.stoppers| && !s.stoppers[k].at.SFlag? }

  /** What only a request_stop can bring about: the flags that end the loop, and its end. */
  predicate Stopping(s: State) {
    s.stopRequested || s.runner.RExited? || (!s.running && !s.runner.RStart?)
  }

  lemma BegunStays(s: State, a: Action)
    requires Begun(s)
    ensures Begun(Step(s, a))
  {
    var k :| 0 <= k < |s.stoppers| && !s.stoppers[k].at.SFlag?;
    assert !Step(s, a).stoppers[k].at.SFlag?;
  }

  lemma StoppingStep(s: State, a: Action)
    requires Stopping(s) ==> Begun(s)
    ensures Stopping(Step(s, a)) ==> Begun(Step(s, a))
  {
    if Begun(s) {
      BegunStays(s, a);
    } else if a.RunStopper? && a.k < |s.stoppers| {
      assert s.stoppers[a.k].at.SFlag?;
      assert !Step(s, a).stoppers[a.k].at.SFlag?;
    }
  }

  /** The runner leaves its loop, in any run, only after some request_stop has begun. */
  lemma {:induction false} ExitMeansStopped(busy: bool, stopperCount: nat, run: seq<Action>)
    ensures var s := Exec(Init(busy, stopperCount), run);
            && (Stopping(s) ==> Begun(s))
            && (s.runner.RExited? ==> Begun(s))
  {
    if run != [] {
      ExitMeansStopped(busy, stopperCount, run[..|run| - 1]);
      StoppingStep(Exec(Init(busy, stopperCount), run[..|run| - 1]), run[|run| - 1]);
    }
  }

  /** run_busy never sleeps. */
  lemma {:induction false} BusyNeverIdles(stopperCount: nat, run: seq<Action>)
    ensures var s := Exec(Init(true, stopperCount), run); s.busy && !s.runner.RIdle?
  {
    if run != [] {
      BusyNeverIdles(stopperCount, run[..|run| - 1]);
    }
  }

  /** Unless a stop is requested, a runner that starts undisturbed comes to its first iteration, also after a
      reset_stop. */
  lemma StartsUnlessStopped(s: State, goIdle: bool, flag: bool)
    requires s.runner.RStart?
    ensures var r := RunRunner(goIdle, flag);
            && (!s.stopRequested ==>
                  var s' := Step(Step(Step(s, r), r), r);
                  s'.runner.RBody? && s'.running && s'.iterations == s.iterations + 1)
            && (s.stopRequested ==> Step(Step(s, r), r).runner.RExited? && !Step(Step(s, r), r).running)
            && !Step(s, ResetStop).stopRequested && Step(s, ResetStop).runner.RStart?
  {
  }

  /** While it is to run, an undisturbed runner goes on for any number of iterations. */
  lemma {:induction false} IteratesOn(s: State, n: nat) returns (run: seq<Action>)
    requires s.runner.RLoop? && s.running
    ensures forall i :: 0 <= i < |run| ==> run[i] == RunRunner(false, false)
    ensures Exec(s, run) == s.(iterations := s.iterations + n)
  {
    if n == 0 {
      run := [];
    } else {
      var r := RunRunner(false, false);
      run := IteratesOn(s, n - 1);
      var s1 := Exec(s, run);
      var s2 := s1.(runner := RBody, iterations := s.iterations + n);
      assert Step(s1, r) == s2;
      assert (run + [r])[..|run|] == run && (run + [r, r])[..|run| + 1] == run + [r];
      assert Exec(s, run + [r]) == s2;
      run := run + [r, r];
    }
  }

  /** An iteration that finds nothing to do goes idle, except in run_busy, and comes back to the head of the loop when
      the idle call returns. */
  lemma IdlesAndComesBack(s: State, goIdle: bool, flag: bool)
    ensures var s' := Step(s, RunRunner(goIdle, flag));
            && (s.runner.RBody? ==>
                  if goIdle && !s.busy then s'.runner.RIdle? && s'.idle == I.Enter(s.idle)
                  else s' == s.(runner := RLoop))
            && (s.runner.RIdle? ==>
                  s'.idle == I.OwnerStep(s.idle, flag) && (s'.runner.RLoop? <==> s'.idle.at.Outside?))
  {
  }
}
