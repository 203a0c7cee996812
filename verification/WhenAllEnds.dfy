/** when_all of coro_api.h comes to an end: whatever has happened so far, the join can always go on, every step brings
    the end closer, and at the end the awaiter has all results. */
module WhenAllEnds {
  import opened Common
  import opened WhenAll

  function TaskLeft(at: TaskAt): nat {
    match at
    case TUnspawned => 6
    case TCompute => 5
    case TDecrement => 4
    case TPost => 3
    case TWalk(cur) => if cur.Null? then 1 else 2
    case TDone => 0
  }

  function AwaiterLeft(at: AwaiterAt): nat {
    match at
    case ASpawn(_) => 6
    case AReady => 5
    case ALoad => 4
    case ACas => 3
    case ASuspended => 2
    case AResume => 1
    case AGone => 0
  }

  function TasksLeft(ts: seq<TaskAt>): nat {
    if ts == [] then 0 else TasksLeft(ts[..|ts| - 1]) + TaskLeft(ts[|ts| - 1])
  }

  /** How many steps the join can take at most. */
  function Left(s: State): nat { TasksLeft(s.tasks) + AwaiterLeft(s.awaiter) }

  predicate Finished(s: State) { s.awaiter.AGone? && forall i :: 0 <= i < |s.tasks| ==> s.tasks[i].TDone? }

  lemma {:induction false} LeftUpdate(ts: seq<TaskAt>, i: nat, at: TaskAt)
    requires i < |ts|
    ensures TasksLeft(ts[i := at]) + TaskLeft(ts[i]) == TasksLeft(ts) + TaskLeft(at)
  {
    var m := |ts| - 1;
    if i < m {
      LeftUpdate(ts[..m], i, at);
      assert ts[i := at][..m] == ts[..m][i := at];
    } else {
      assert ts[i := at][..m] == ts[..m];
    }
  }

  lemma TaskStepLeft(s: State, i: nat)
    requires Inv(s) && i < |s.tasks|
    ensures var s' := TaskStep(s, i);
            && s'.tasks == s.tasks[i := s'.tasks[i]] && AwaiterLeft(s'.awaiter) <= AwaiterLeft(s.awaiter)
            && (s.tasks[i].TUnspawned? || s.tasks[i].TDone? ==> s' == s)
            && (!s.tasks[i].TUnspawned? && !s.tasks[i].TDone? ==> TaskLeft(s'.tasks[i]) < TaskLeft(s.tasks[i]))
  {
    assert TaskOk(s, i);
  }

  lemma AwaiterStepLeft(s: State)
    requires Inv(s)
    ensures var s' := AwaiterStep(s, false);
            if s.awaiter.ASpawn? && s.awaiter.i < |s.tasks| then
              s'.tasks == s.tasks[s.awaiter.i := TCompute] && s.tasks[s.awaiter.i].TUnspawned? && s'.awaiter.ASpawn?
            else
              && s'.tasks == s.tasks
              && (s' == s <==> s.awaiter.ASuspended? || s.awaiter.AGone?)
              && (s' != s ==> AwaiterLeft(s'.awaiter) < AwaiterLeft(s.awaiter))
  {
    if s.awaiter.ASpawn? && s.awaiter.i < |s.tasks| {
      assert TaskOk(s, s.awaiter.i);
    }
  }

  /** In every run each step other than a spurious failure that changes anything brings the end closer. */
  lemma StepsCount(outs: seq<int>, run: seq<Action>, a: Action)
    requires !(a.RunAwaiter? && a.spurious)
    ensures var s := Exec(Init(outs), run); Step(s, a) != s ==> Left(Step(s, a)) < Left(s)
  {
    RunKept(outs, run);
    StepLeft(Exec(Init(outs), run), a);
  }

  lemma StepLeft(s: State, a: Action)
    requires Inv(s) && !(a.RunAwaiter? && a.spurious)
    ensures Step(s, a) != s ==> Left(Step(s, a)) < Left(s)
  {
    if a.RunAwaiter? {
      AwaiterStepLeft(s);
      if s.awaiter.ASpawn? && s.awaiter.i < |s.tasks| {
        LeftUpdate(s.tasks, s.awaiter.i, TCompute);
      }
    } else if a.i < |s.tasks| {
      TaskStepLeft(s, a.i);
      LeftUpdate(s.tasks, a.i, TaskStep(s, a.i).tasks[a.i]);
    }
  }

  /** A join that has not finished can go on. */
  lemma NotStuck(s: State) returns (a: Action)
    requires Inv(s) && !Finished(s)
    ensures !(a.RunAwaiter? && a.spurious) && Step(s, a) != s
  {
    if i :| 0 <= i < |s.tasks| && !s.tasks[i].TDone? && !s.tasks[i].TUnspawned? {
      a := RunTask(i);
      TaskStepLeft(s, i);
    } else {
      a := RunAwaiter(false);
      AwaiterStepLeft(s);
      if s.awaiter.ASpawn? && s.awaiter.i < |s.tasks| {
        assert AwaiterStep(s, false).tasks[s.awaiter.i] != s.tasks[s.awaiter.i];
      } else {
        AllDone(s);
      }
    }
  }

  /** When nothing is running any more and everything was spawned, the awaiter is not suspended, and not gone too
      early. */
  lemma AllDone(s: State)
    requires Inv(s) && !(s.awaiter.ASpawn? && s.awaiter.i < |s.tasks|)
    requires forall i :: 0 <= i < |s.tasks| ==> s.tasks[i].TDone? || s.tasks[i].TUnspawned?
    ensures !s.awaiter.ASuspended? && (s.awaiter.AGone? ==> Finished(s))
  {
    forall i | 0 <= i < |s.tasks|
      ensures s.tasks[i].TDone?
    {
      assert TaskOk(s, i);
    }
    NoneCounted(s.tasks);
  }

  lemma {:induction false} ExecAppend(s: State, run: seq<Action>, more: seq<Action>)
    requires |s.outs| == |s.results| == |s.tasks|
    ensures Exec(s, run + more) == Exec(Exec(s, run), more)
  {
    if more == [] {
      assert run + more == run;
    } else {
      var m := |more| - 1;
      ExecAppend(s, run, more[..m]);
      assert (run + more)[..|run + more| - 1] == run + more[..m];
    }
  }

  lemma {:induction false} FinishFrom(s: State) returns (run: seq<Action>)
    requires Inv(s)
    ensures Finished(Exec(s, run))
    decreases Left(s)
  {
    if Finished(s) {
      run := [];
    } else {
      var a := NotStuck(s);
      StepLeft(s, a);
      StepKept(s, a);
      var more := FinishFrom(Step(s, a));
      assert Exec(s, []) == s && [a][..0] == [] && Exec(s, [a]) == Step(s, a);
      ExecAppend(s, [a], more);
      run := [a] + more;
    }
  }

  /** Every run can be continued to the end, where all tasks are done and the awaiter has gone on with all results. */
  lemma JoinFinishes(outs: seq<int>, run: seq<Action>) returns (more: seq<Action>)
    ensures var s := Exec(Init(outs), run + more);
            Finished(s) && |s.got| == |outs| && forall i :: 0 <= i < |outs| ==> s.got[i] == Some(outs[i])
  {
    RunKept(outs, run);
    more := FinishFrom(Exec(Init(outs), run));
    ExecAppend(Init(outs), run, more);
    JoinIsSafe(outs, run + more);
  }
}
