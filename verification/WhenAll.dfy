/** when_all of coro_api.h: N tasks storing their results into state that lives in the awaiting coroutine's frame,
    a countdown, and a baton posted by the last task.  The awaiter may resume, and its frame vanish, as soon as the
    baton lets it. */
module WhenAll {
  import opened Common
  import B = Baton

  datatype TaskAt = TUnspawned | TCompute | TDecrement | TPost | TWalk(cur: Ref) | TDone

  datatype AwaiterAt = ASpawn(i: nat) | AReady | ALoad | ACas | ASuspended | AResume | AGone

  /** `outs[i]` is what callable i returns.  `alive` says the shared state still exists; `misused` records that a
      step accessed it when it did not.  History: the posting task, the number of posts and resumptions. */
  datatype State = State(
    outs: seq<int>, remaining: int, results: seq<Option<int>>, word: B.Word,
    tasks: seq<TaskAt>, awaiter: AwaiterAt, seen: B.Word, next: Ref,
    alive: bool, misused: bool, poster: Option<nat>, posts: nat, resumes: nat, got: seq<Option<int>>)

  datatype Action = RunTask(i: nat) | RunAwaiter(spurious: bool)

  /** Every access to the shared state goes through here. */
  function Touch(s: State): State { s.(misused := s.misused || !s.alive) }

  function Goto(s: State, i: nat, at: TaskAt): State
    requires i < |s.tasks|
  {
    s.(tasks := s.tasks[i := at])
  }

  function PostWord(s: State): State { s.(word := B.Word(Null, true), posts := s.posts + 1) }

  function TaskStep(s: State, i: nat): State
    requires i < |s.tasks| && |s.outs| == |s.results| == |s.tasks|
  {
    match s.tasks[i]
    case TUnspawned => s
    case TCompute => Goto(Touch(s), i, TDecrement).(results := s.results[i := Some(s.outs[i])])
    case TDecrement =>
      if s.remaining == 1 then Goto(Touch(s), i, TPost).(remaining := 0, poster := Some(i))
      else Goto(Touch(s), i, TDone).(remaining := s.remaining - 1)
    case TPost => Goto(PostWord(Touch(s)), i, TWalk(s.word.head))
    case TWalk(cur) =>
      if cur.Null? then Goto(s, i, TDone)
      else Goto(Touch(s), i, TWalk(s.next)).(awaiter := if s.awaiter.ASuspended? then AResume else s.awaiter,
                                             resumes := s.resumes + 1)
    case TDone => s
  }

  /** The loop head of the baton's await_suspend. */
  function Aim(s: State): State {
    if s.word.posted then s.(awaiter := AResume, seen := s.word, resumes := s.resumes + 1)
    else s.(awaiter := ACas, seen := s.word, next := s.word.head)
  }

  function AwaiterStep(s: State, spurious: bool): State
    requires |s.outs| == |s.results| == |s.tasks|
  {
    match s.awaiter
    case ASpawn(i) =>
      if |s.tasks| == 0 then PostWord(Touch(s)).(awaiter := AReady)
      else if i < |s.tasks| then Goto(s, i, TCompute).(awaiter := ASpawn(i + 1))
      else s.(awaiter := AReady)
    case AReady =>
      if s.word.posted then Touch(s).(awaiter := AResume, resumes := s.resumes + 1) else Touch(s).(awaiter := ALoad)
    case ALoad => Aim(Touch(s))
    case ACas =>
      if spurious || s.word != s.seen then Aim(Touch(s))
      else Touch(s).(awaiter := ASuspended, word := B.Word(Node(0), false))
    case ASuspended => s
    case AResume => Touch(s).(awaiter := AGone, got := s.results, alive := false)
    case AGone => s
  }

  function Step(s: State, a: Action): (s': State)
    requires |s.outs| == |s.results| == |s.tasks|
    ensures |s'.outs| == |s'.results| == |s'.tasks| == |s.tasks|
  {
    match a
    case RunTask(i) => if i < |s.tasks| then TaskStep(s, i) else s
    case RunAwaiter(spurious) => AwaiterStep(s, spurious)
  }

  function Init(outs: seq<int>): (s: State)
    ensures |s.outs| == |s.results| == |s.tasks|
  {
    State(outs, |outs|, seq(|outs|, _ => None), B.EMPTY, seq(|outs|, _ => TUnspawned), ASpawn(0), B.EMPTY, Null,
          true, false, None, 0, 0, [])
  }

  function Exec(s: State, run: seq<Action>): (s': State)
    requires |s.outs| == |s.results| == |s.tasks|
    ensures |s'.outs| == |s'.results| == |s'.tasks| == |s.tasks|
  {
    if run == [] then s else Step(Exec(s, run[..|run| - 1]), run[|run| - 1])
  }

  // ---- What every run keeps -------------------------------------------------------------------------

  predicate Pending(at: TaskAt) { at.TUnspawned? || at.TCompute? || at.TDecrement? }

  /** How many tasks have not yet decremented the countdown. */
  function Count(ts: seq<TaskAt>): nat {
    if ts == [] then 0 else Count(ts[..|ts| - 1]) + (if Pending(ts[|ts| - 1]) then 1 else 0)
  }

  lemma {:induction false} CountUpdate(ts: seq<TaskAt>, i: nat, at: TaskAt)
    requires i < |ts|
    ensures Count(ts[i := at]) ==
            Count(ts) - (if Pending(ts[i]) then 1 else 0) + (if Pending(at) then 1 else 0)
  {
    var m := |ts| - 1;
    if i < m {
      CountUpdate(ts[..m], i, at);
      assert ts[i := at][..m] == ts[..m][i := at];
    } else {
      assert ts[i := at][..m] == ts[..m];
    }
  }

  lemma {:induction false} CountZero(ts: seq<TaskAt>, i: nat)
    requires i < |ts| && Pending(ts[i])
    ensures Count(ts) > 0
  {
    if i < |ts| - 1 {
      CountZero(ts[..|ts| - 1], i);
    }
  }

  lemma {:induction false} CountAll(ts: seq<TaskAt>)
    ensures (forall i :: 0 <= i < |ts| ==> ts[i].TUnspawned?) ==> Count(ts) == |ts|
  {
    if ts != [] {
      CountAll(ts[..|ts| - 1]);
    }
  }

  predicate TaskOk(s: State, i: nat)
    requires i < |s.tasks| == |s.results| == |s.outs|
  {
    var at := s.tasks[i];
    && (at.TUnspawned? <==> s.awaiter.ASpawn? && i >= s.awaiter.i)
    && (!at.TUnspawned? && !at.TCompute? ==> s.results[i] == Some(s.outs[i]))
    && (at.TPost? || at.TWalk? ==> s.poster == Some(i))
    && (at.TPost? ==> s.posts == 0)
    && (at.TWalk? ==> s.posts == 1)
    && (at.TWalk? && at.cur.Node? ==> s.awaiter.ASuspended?)
  }

  predicate AwaiterOk(s: State)
    requires |s.tasks| == |s.results| == |s.outs|
  {
    && (s.awaiter.ASpawn? ==> s.awaiter.i <= |s.tasks|)
    && (s.awaiter.ASpawn? && |s.tasks| == 0 ==> s.posts == 0)
    && (!s.awaiter.ASpawn? && |s.tasks| == 0 ==> s.posts == 1)
    && (s.awaiter.ACas? ==> s.seen == B.EMPTY)
    && (s.awaiter.ACas? || s.awaiter.ASuspended? ==> s.next.Null?)
    && (s.awaiter.AResume? || s.awaiter.AGone? ==> s.posts == 1)
    && (s.awaiter.ASuspended? && s.posts == 1 ==>
          && s.poster.Some? && s.poster.value < |s.tasks| && s.tasks[s.poster.value] == TWalk(Node(0)))
    && (s.alive <==> !s.awaiter.AGone?)
    && s.resumes == (if s.awaiter.AResume? || s.awaiter.AGone? then 1 else 0)
    && (s.awaiter.AGone? ==> |s.got| == |s.outs| && forall i :: 0 <= i < |s.outs| ==> s.got[i] == Some(s.outs[i]))
  }

  predicate WordOk(s: State) {
    s.word == (if s.posts == 1 then B.Word(Null, true)
               else if s.awaiter.ASuspended? then B.Word(Node(0), false) else B.EMPTY)
  }

  predicate Inv(s: State) {
    && |s.outs| == |s.results| == |s.tasks|
    && s.remaining == Count(s.tasks)
    && s.posts <= 1 && !s.misused
    && (s.posts == 1 ==> s.remaining == 0)
    && (s.poster.Some? <==> |s.tasks| > 0 && s.remaining == 0)
    && (s.poster.Some? ==> s.poster.value < |s.tasks| && (s.posts == 0 ==> s.tasks[s.poster.value].TPost?))
    && WordOk(s) && AwaiterOk(s)
    && forall i :: 0 <= i < |s.tasks| ==> TaskOk(s, i)
  }

  lemma ComputeKept(s: State, i: nat)
    requires Inv(s) && i < |s.tasks| && Pending(s.tasks[i])
    ensures Inv(TaskStep(s, i))
  {
    var s' := TaskStep(s, i);
    assert TaskOk(s, i);
    CountZero(s.tasks, i);
    CountUpdate(s.tasks, i, s'.tasks[i]);
    forall j | 0 <= j < |s'.tasks|
      ensures TaskOk(s', j)
    {
      assert TaskOk(s, j);
    }
  }

  lemma PostKept(s: State, i: nat)
    requires Inv(s) && i < |s.tasks| && !Pending(s.tasks[i])
    ensures Inv(TaskStep(s, i))
  {
    var s' := TaskStep(s, i);
    assert TaskOk(s, i);
    CountUpdate(s.tasks, i, s'.tasks[i]);
    forall j | 0 <= j < |s'.tasks|
      ensures TaskOk(s', j)
    {
      assert TaskOk(s, j);
    }
  }

  /** Starting the tasks, one after the other. */
  lemma SpawnKept(s: State, spurious: bool)
    requires Inv(s) && s.awaiter.ASpawn?
    ensures Inv(AwaiterStep(s, spurious))
  {
    var s' := AwaiterStep(s, spurious);
    if s.awaiter.i < |s.tasks| {
      assert TaskOk(s, s.awaiter.i);
      CountUpdate(s.tasks, s.awaiter.i, TCompute);
    }
    forall j | 0 <= j < |s'.tasks|
      ensures TaskOk(s', j)
    {
      assert TaskOk(s, j);
    }
  }

  /** The awaiter's steps on the baton. */
  lemma WaitKept(s: State, spurious: bool)
    requires Inv(s) && (s.awaiter.AReady? || s.awaiter.ALoad? || s.awaiter.ACas?)
    ensures Inv(AwaiterStep(s, spurious))
  {
    var s' := AwaiterStep(s, spurious);
    forall j | 0 <= j < |s'.tasks|
      ensures TaskOk(s', j)
    {
      assert TaskOk(s, j);
    }
  }

  /** Its resumption. */
  lemma ResumeKept(s: State, spurious: bool)
    requires Inv(s) && s.awaiter.AResume?
    ensures Inv(AwaiterStep(s, spurious))
  {
    var s' := AwaiterStep(s, spurious);
    forall j | 0 <= j < |s'.tasks|
      ensures TaskOk(s', j)
    {
      assert TaskOk(s, j);
    }
    AllStored(s);
  }

  lemma AwaiterKept(s: State, spurious: bool)
    requires Inv(s)
    ensures Inv(AwaiterStep(s, spurious))
  {
    match s.awaiter
    case ASpawn(_) => SpawnKept(s, spurious);
    case AResume => ResumeKept(s, spurious);
    case ASuspended =>
    case AGone =>
    case _ => WaitKept(s, spurious);
  }

  lemma AllStored(s: State)
    requires Inv(s) && s.posts == 1
    ensures forall i :: 0 <= i < |s.tasks| ==> !Pending(s.tasks[i]) && s.results[i] == Some(s.outs[i])
  {
    forall i | 0 <= i < |s.tasks|
      ensures !Pending(s.tasks[i]) && s.results[i] == Some(s.outs[i])
    {
      assert TaskOk(s, i);
      if Pending(s.tasks[i]) {
        CountZero(s.tasks, i);
      }
    }
  }

  lemma StepKept(s: State, a: Action)
    requires Inv(s)
    ensures Inv(Step(s, a))
  {
    if a.RunAwaiter? {
      AwaiterKept(s, a.spurious);
    } else if a.i < |s.tasks| {
      if Pending(s.tasks[a.i]) {
        ComputeKept(s, a.i);
      } else {
        PostKept(s, a.i);
      }
    }
  }

  lemma {:induction false} RunKept(outs: seq<int>, run: seq<Action>)
    ensures Inv(Exec(Init(outs), run))
  {
    if run == [] {
      CountAll(Init(outs).tasks);
    } else {
      RunKept(outs, run[..|run| - 1]);
      StepKept(Exec(Init(outs), run[..|run| - 1]), run[|run| - 1]);
    }
  }

  lemma StepOuts(s: State, a: Action)
    requires |s.outs| == |s.results| == |s.tasks|
    ensures Step(s, a).outs == s.outs
  {
  }

  lemma {:induction false} OutsKept(outs: seq<int>, run: seq<Action>)
    ensures Exec(Init(outs), run).outs == outs
  {
    if run != [] {
      OutsKept(outs, run[..|run| - 1]);
      StepOuts(Exec(Init(outs), run[..|run| - 1]), run[|run| - 1]);
    }
  }

  // ---- Main results ---------------------------------------------------------------------------------

  /** For any N and any interleaving: the baton is posted at most once, the awaiter resumes at most once and only when
      every result is stored, it receives exactly the callables' results in order, and no task and no poster ever
      touches the shared state after the awaiter's frame is gone. */
  lemma JoinIsSafe(outs: seq<int>, run: seq<Action>)
    ensures var s := Exec(Init(outs), run);
            && !s.misused && s.posts <= 1 && s.resumes <= 1
            && (s.resumes == 1 ==> s.posts == 1 && forall i :: 0 <= i < |outs| ==> s.results[i] == Some(outs[i]))
            && (s.awaiter.AGone? ==> |s.got| == |outs| && forall i :: 0 <= i < |outs| ==> s.got[i] == Some(outs[i]))
  {
    RunKept(outs, run);
    OutsKept(outs, run);
    var s := Exec(Init(outs), run);
    if s.resumes == 1 {
      AllStored(s);
    }
  }

  /** Nobody is left waiting: once all tasks are done the baton has been posted exactly once and the awaiter is not
      suspended; and a task that can still touch the shared state keeps the awaiter from being resumed. */
  lemma JoinCompletes(outs: seq<int>, run: seq<Action>, i: nat)
    ensures var s := Exec(Init(outs), run);
            && ((forall j :: 0 <= j < |outs| ==> s.tasks[j].TDone?) && !s.awaiter.ASpawn? ==>
                  s.posts == 1 && !s.awaiter.ASuspended?)
            && (i < |outs| && !s.tasks[i].TDone? && s.tasks[i] != TWalk(Null) ==> s.resumes == 0)
  {
    RunKept(outs, run);
    OutsKept(outs, run);
    var s := Exec(Init(outs), run);
    if i < |outs| {
      assert TaskOk(s, i);
      if Pending(s.tasks[i]) {
        CountZero(s.tasks, i);
      }
    }
    if (forall j :: 0 <= j < |outs| ==> s.tasks[j].TDone?) {
      NoneCounted(s.tasks);
    }
  }

  lemma {:induction false} NoneCounted(ts: seq<TaskAt>)
    requires forall j :: 0 <= j < |ts| ==> !Pending(ts[j])
    ensures Count(ts) == 0
  {
    if ts != [] {
      NoneCounted(ts[..|ts| - 1]);
    }
  }
}
