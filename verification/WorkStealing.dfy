/** work_stealing_executor.cc: workers that scan their queues in a fixed order and park when all are empty, and
    submissions that enqueue and then notify.  A ring is taken as an atomic queue (MpmcRing.ActsAsQueue shows that each
    call takes effect in one step) that may refuse an item at any time: MpmcRing refuses when full, and also while
    slots are claimed but not released.  Parking is the protocol of AdaptiveIdle. */
module WorkStealing {
  import I = AdaptiveIdle

  /** The work of submission number k, or work that a worker gave itself while running. */
  datatype Item = Submitted(k: nat) | Inner(n: nat)

  /** The queues: the yield queue and the ring of a worker, and the global ring. */
  datatype Place = YieldOf(w: nat) | RingOf(w: nat) | GlobalRing

  datatype Entry = Entry(place: Place, x: Item)

  /** A running worker executes what it took from a queue. */
  datatype WorkerAt = AtLoop | ScanLocal | ScanGlobal | Stealing | InIdle | Running(e: Entry)

  datatype Worker = Worker(at: WorkerAt, idle: I.Idle, yieldQ: seq<Item>, localQ: seq<Item>)

  datatype Dest = ToWorker(w: nat) | ToGlobal

  /** A submission: enqueue, pick the worker to notify (global ones), then the three steps of notify. */
  datatype SubAt = SEnqueue | SPick | SLock | SWrite | SOne | SDone

  datatype Sub = Sub(dest: Dest, target: nat, at: SubAt)

  /** History: what the queues have accepted, what workers have taken from them, and what they have executed. */
  datatype State = State(localCap: nat, globalCap: nat, workers: seq<Worker>, global: seq<Item>,
                         subs: seq<Sub>, counter: nat,
                         accepted: seq<Entry>, taken: seq<Entry>, executed: seq<Entry>)

  /** The counter that picks the worker to notify is shared with other executors, whose use of it is OtherAdds. */
  datatype Action =
    | Submit(dest: Dest)
    | RunSub(k: nat, refused: bool)
    | RunWorker(w: nat, victim: nat, flag: bool)
    | SpuriousWake(w: nat)
    | AddOwn(w: nat, n: nat, refused: bool)
    | YieldBack(w: nat, n: nat)
    | OtherAdds(n: nat)

  predicate Admits(q: seq<Item>, cap: nat, refused: bool) { |q| < cap && !refused }

  /** A ring that refuses the item, as a full one must, drops it silently. */
  function Enqueue(q: seq<Item>, cap: nat, x: Item, refused: bool): seq<Item> {
    if Admits(q, cap, refused) then q + [x] else q
  }

  /** The log entry of such an attempt. */
  function Log(q: seq<Item>, cap: nat, e: Entry, refused: bool): seq<Entry> {
    if Admits(q, cap, refused) then [e] else []
  }

  function SetWorker(s: State, w: nat, wk: Worker): State
    requires w < |s.workers|
  {
    s.(workers := s.workers[w := wk])
  }

  function SetSub(s: State, k: nat, sub: Sub): State
    requires k < |s.subs|
  {
    s.(subs := s.subs[k := sub])
  }

  function SetIdle(s: State, w: nat, idle: I.Idle): State
    requires w < |s.workers|
  {
    SetWorker(s, w, s.workers[w].(idle := idle))
  }

  function SubStep(s: State, k: nat, refused: bool): State
    requires k < |s.subs| && |s.workers| > 0
  {
    var sub := s.subs[k];
    match sub.at
    case SEnqueue =>
      if sub.dest.ToGlobal? then
        SetSub(s, k, sub.(at := SPick)).(
          global := Enqueue(s.global, s.globalCap, Submitted(k), refused),
          accepted := s.accepted + Log(s.global, s.globalCap, Entry(GlobalRing, Submitted(k)), refused))
      else if sub.dest.w >= |s.workers| then SetSub(s, k, sub.(at := SDone))
      else
        var wk, e := s.workers[sub.dest.w], Entry(RingOf(sub.dest.w), Submitted(k));
        SetSub(SetWorker(s, sub.dest.w, wk.(localQ := Enqueue(wk.localQ, s.localCap, Submitted(k), refused))), k,
               sub.(at := SLock, target := sub.dest.w)).(
          accepted := s.accepted + Log(wk.localQ, s.localCap, e, refused))
    case SPick => SetSub(s, k, sub.(at := SLock, target := s.counter % |s.workers|)).(counter := s.counter + 1)
    case SLock =>
      if sub.target >= |s.workers| then s
      else SetSub(SetIdle(s, sub.target, I.NotifyLock(s.workers[sub.target].idle)), k, sub.(at := SWrite))
    case SWrite =>
      if sub.target >= |s.workers| then s
      else SetSub(SetIdle(s, sub.target, I.NotifyWrite(s.workers[sub.target].idle)), k, sub.(at := SOne))
    case SOne =>
      if sub.target >= |s.workers| then s
      else SetSub(SetIdle(s, sub.target, I.NotifyOne(s.workers[sub.target].idle)), k, sub.(at := SDone))
    case SDone => s
  }

  /** Worker `w` executes `e`, which it has just taken. */
  function Begin(s: State, w: nat, e: Entry): State
    requires w < |s.workers|
  {
    SetWorker(s, w, s.workers[w].(at := Running(e))).(taken := s.taken + [e])
  }

  /** The next step of worker `w`: the scan order is yield queue, own ring, global ring, peers, park.  While
      stealing, `victim` is the peer tried next and `flag` ends the attempts; while idle, `flag` ends a poll. */
  function WorkerStep(s: State, w: nat, victim: nat, flag: bool): State
    requires w < |s.workers|
  {
    var wk := s.workers[w];
    match wk.at
    case AtLoop =>
      if wk.yieldQ == [] then SetWorker(s, w, wk.(at := ScanLocal))
      else Begin(SetWorker(s, w, wk.(yieldQ := wk.yieldQ[1..])), w, Entry(YieldOf(w), wk.yieldQ[0]))
    case ScanLocal =>
      if wk.localQ == [] then SetWorker(s, w, wk.(at := ScanGlobal))
      else Begin(SetWorker(s, w, wk.(localQ := wk.localQ[1..])), w, Entry(RingOf(w), wk.localQ[0]))
    case ScanGlobal =>
      if s.global == [] then SetWorker(s, w, wk.(at := Stealing))
      else Begin(s.(global := s.global[1..]), w, Entry(GlobalRing, s.global[0]))
    case Stealing =>
      if flag then SetWorker(s, w, wk.(at := InIdle, idle := I.Enter(wk.idle)))
      else if victim < |s.workers| && victim != w && s.workers[victim].localQ != [] then
        var q := s.workers[victim].localQ;
        Begin(SetWorker(s, victim, s.workers[victim].(localQ := q[1..])), w, Entry(RingOf(victim), q[0]))
      else s
    case InIdle =>
      var idle := I.OwnerStep(wk.idle, flag);
      SetWorker(s, w, wk.(idle := idle, at := if idle.at.Outside? then AtLoop else InIdle))
    case Running(e) => SetWorker(s, w, wk.(at := AtLoop)).(executed := s.executed + [e])
  }

  function Step(s: State, a: Action): (s': State)
    requires |s.workers| > 0
    ensures |s'.workers| == |s.workers|
  {
    match a
    case Submit(dest) => s.(subs := s.subs + [Sub(dest, 0, SEnqueue)])
    case RunSub(k, refused) => if k < |s.subs| then SubStep(s, k, refused) else s
    case RunWorker(w, victim, flag) => if w < |s.workers| then WorkerStep(s, w, victim, flag) else s
    case SpuriousWake(w) => if w < |s.workers| then SetIdle(s, w, I.Wake(s.workers[w].idle)) else s
    case AddOwn(w, n, refused) =>
      if w < |s.workers| && s.workers[w].at.Running? then
        var q := s.workers[w].localQ;
        SetWorker(s, w, s.workers[w].(localQ := Enqueue(q, s.localCap, Inner(n), refused))).(
          accepted := s.accepted + Log(q, s.localCap, Entry(RingOf(w), Inner(n)), refused))
      else s
    case YieldBack(w, n) =>
      if w < |s.workers| && s.workers[w].at.Running? then
        SetWorker(s, w, s.workers[w].(yieldQ := s.workers[w].yieldQ + [Inner(n)])).(
          accepted := s.accepted + [Entry(YieldOf(w), Inner(n))])
      else s
    case OtherAdds(n) => s.(counter := s.counter + n)
  }

  function Init(workerCount: nat, localCap: nat, globalCap: nat): State {
    State(localCap, globalCap, seq(workerCount, _ => Worker(AtLoop, I.FRESH, [], [])), [], [], 0, [], [], [])
  }

  function Exec(s: State, run: seq<Action>): (s': State)
    requires |s.workers| > 0
    ensures |s'.workers| == |s.workers|
  {
    if run == [] then s else Step(Exec(s, run[..|run| - 1]), run[|run| - 1])
  }

  // ---- What every run keeps -------------------------------------------------------------------------

  predicate PastLocal(at: WorkerAt) { at.ScanGlobal? || at.Stealing? || at.InIdle? }

  predicate PastGlobal(at: WorkerAt) { at.Stealing? || at.InIdle? }

  /** The item has been enqueued by its submission, whose notify has not begun. */
  predicate BeforeLock(sub: Sub) { sub.at.SPick? || sub.at.SLock? }

  /** Worker state `idle` cannot stay asleep on the work of `sub`: either that submission's notify is still to
      come, or its effect is visible to the next test the worker makes. */
  predicate Covered(idle: I.Idle, sub: Sub) {
    match idle.at
    case Waiting(g) => !sub.at.SDone? && (BeforeLock(sub) || idle.generation > g)
    case Woken(g) => BeforeLock(sub) || idle.generation > g
    case _ => BeforeLock(sub) || idle.pending
  }

  /** A submission that has put its item into the queue of worker `w`. */
  predicate Delivered(sub: Sub, w: nat) { sub.dest == ToWorker(w) && sub.target == w && !sub.at.SEnqueue? }

  predicate WorkerOk(s: State, w: nat)
    requires w < |s.workers|
  {
    var wk := s.workers[w];
    && I.Ok(wk.idle)
    && (wk.at.InIdle? <==> !wk.idle.at.Outside?)
    && (wk.at.ScanLocal? || PastLocal(wk.at) ==> wk.yieldQ == [])
    && (forall x :: x in wk.localQ && x.Submitted? ==> x.k < |s.subs| && Delivered(s.subs[x.k], w))
    && (PastLocal(wk.at) ==> forall x :: x in wk.localQ ==> x.Submitted? && Covered(wk.idle, s.subs[x.k]))
  }

  predicate GlobalItemOk(s: State, x: Item) {
    && x.Submitted? && x.k < |s.subs|
    && var sub := s.subs[x.k];
    && sub.dest.ToGlobal? && !sub.at.SEnqueue?
    && (!sub.at.SPick? ==>
          && sub.target < |s.workers|
          && (PastGlobal(s.workers[sub.target].at) ==> Covered(s.workers[sub.target].idle, sub)))
  }

  predicate SubOk(s: State, k: nat)
    requires k < |s.subs|
  {
    && (s.subs[k].at.SLock? || s.subs[k].at.SWrite? || s.subs[k].at.SOne? ==> s.subs[k].target < |s.workers|)
    && (s.subs[k].at.SPick? ==> s.subs[k].dest.ToGlobal?)
  }

  predicate Inv(s: State) {
    && |s.workers| > 0
    && (forall w :: 0 <= w < |s.workers| ==> WorkerOk(s, w))
    && (forall x :: x in s.global ==> GlobalItemOk(s, x))
    && (forall k :: 0 <= k < |s.subs| ==> SubOk(s, k))
  }

  /** Submissions keep their own facts while the number of workers stands. */
  lemma SubsKept(s: State, k: nat, refused: bool)
    requires Inv(s) && k < |s.subs|
    ensures forall j :: 0 <= j < |s.subs| ==> SubOk(SubStep(s, k, refused), j)
  {
    forall j | 0 <= j < |s.subs|
      ensures SubOk(SubStep(s, k, refused), j)
    {
      assert SubOk(s, j) && SubOk(s, k);
    }
  }

  lemma EnqueueKept(s: State, k: nat, refused: bool)
    requires Inv(s) && k < |s.subs| && (s.subs[k].at.SEnqueue? || s.subs[k].at.SPick?)
    ensures Inv(SubStep(s, k, refused))
  {
    var s' := SubStep(s, k, refused);
    SubsKept(s, k, refused);
    assert SubOk(s, k);
    forall w | 0 <= w < |s'.workers|
      ensures WorkerOk(s', w)
    {
      assert WorkerOk(s, w);
      EnqueueWorker(s, k, refused, w);
    }
    forall x | x in s'.global
      ensures GlobalItemOk(s', x)
    {
      assert x in s.global ==> GlobalItemOk(s, x);
    }
  }

  lemma EnqueueWorker(s: State, k: nat, refused: bool, w: nat)
    requires |s.workers| > 0 && k < |s.subs| && (s.subs[k].at.SEnqueue? || s.subs[k].at.SPick?) && SubOk(s, k)
    requires w < |s.workers| && WorkerOk(s, w)
    ensures WorkerOk(SubStep(s, k, refused), w)
  {
  }

  /** A notify step of submission k as seen by worker w. */
  predicate Notified(idle: I.Idle, idle': I.Idle, sub: Sub, sub': Sub) {
    match sub.at
    case SLock => sub' == sub.(at := SWrite) && idle' == I.NotifyLock(idle)
    case SWrite => sub' == sub.(at := SOne) && idle' == I.NotifyWrite(idle)
    case SOne => sub' == sub.(at := SDone) && idle' == I.NotifyOne(idle)
    case _ => false
  }

  /** Its own work stays covered, */
  lemma NotifiedOwn(idle: I.Idle, idle': I.Idle, sub: Sub, sub': Sub)
    requires I.Ok(idle) && Notified(idle, idle', sub, sub') && Covered(idle, sub)
    ensures Covered(idle', sub')
  {
  }

  /** and so does that of others. */
  lemma NotifiedOther(idle: I.Idle, idle': I.Idle, sub: Sub, sub': Sub, other: Sub)
    requires I.Ok(idle) && Notified(idle, idle', sub, sub') && Covered(idle, other)
    ensures Covered(idle', other)
  {
  }

  /** The worker that is notified. */
  lemma NotifyTarget(s: State, s': State, k: nat, w: nat)
    requires k < |s.subs| && w < |s.workers| && s.subs[k].target == w && WorkerOk(s, w)
    requires |s'.workers| == |s.workers| && |s'.subs| == |s.subs|
    requires s'.workers[w] == s.workers[w].(idle := s'.workers[w].idle)
    requires Notified(s.workers[w].idle, s'.workers[w].idle, s.subs[k], s'.subs[k])
    requires s'.subs == s.subs[k := s'.subs[k]]
    ensures WorkerOk(s', w)
  {
    I.StepsKeepOk(s.workers[w].idle, false);
    forall x | x in s.workers[w].localQ && PastLocal(s.workers[w].at)
      ensures x.Submitted? && Covered(s'.workers[w].idle, s'.subs[x.k])
    {
      if x.k == k {
        NotifiedOwn(s.workers[w].idle, s'.workers[w].idle, s.subs[k], s'.subs[k]);
      } else {
        NotifiedOther(s.workers[w].idle, s'.workers[w].idle, s.subs[k], s'.subs[k], s.subs[x.k]);
      }
    }
  }

  /** A worker that is not: the work of submission k is not in its ring. */
  lemma NotifyOther(s: State, s': State, k: nat, w: nat)
    requires k < |s.subs| && w < |s.workers| && s.subs[k].target != w && WorkerOk(s, w)
    requires |s'.workers| == |s.workers| && |s'.subs| == |s.subs| && s'.workers[w] == s.workers[w]
    requires s'.subs == s.subs[k := s'.subs[k]]
    ensures WorkerOk(s', w)
  {
  }

  lemma NotifyWorker(s: State, k: nat, refused: bool, w: nat)
    requires Inv(s) && k < |s.subs| && !s.subs[k].at.SEnqueue? && !s.subs[k].at.SPick? && w < |s.workers|
    ensures WorkerOk(SubStep(s, k, refused), w)
  {
    assert SubOk(s, k) && WorkerOk(s, w);
    if !s.subs[k].at.SDone? {
      if s.subs[k].target == w {
        NotifyTarget(s, SubStep(s, k, refused), k, w);
      } else {
        NotifyOther(s, SubStep(s, k, refused), k, w);
      }
    }
  }

  lemma NotifyGlobal(s: State, k: nat, refused: bool, x: Item)
    requires Inv(s) && k < |s.subs| && !s.subs[k].at.SEnqueue? && !s.subs[k].at.SPick? && x in s.global
    ensures GlobalItemOk(SubStep(s, k, refused), x)
  {
    assert SubOk(s, k) && GlobalItemOk(s, x);
    if !s.subs[k].at.SDone? {
      assert WorkerOk(s, s.subs[k].target);
    }
  }

  lemma NotifyKept(s: State, k: nat, refused: bool)
    requires Inv(s) && k < |s.subs| && !s.subs[k].at.SEnqueue? && !s.subs[k].at.SPick?
    ensures Inv(SubStep(s, k, refused))
  {
    var s' := SubStep(s, k, refused);
    SubsKept(s, k, refused);
    forall w | 0 <= w < |s'.workers|
      ensures WorkerOk(s', w)
    {
      NotifyWorker(s, k, refused, w);
    }
    forall x | x in s'.global
      ensures GlobalItemOk(s', x)
    {
      NotifyGlobal(s, k, refused, x);
    }
  }

  lemma ScanOwn(s: State, w: nat, victim: nat, flag: bool)
    requires w < |s.workers| && !s.workers[w].at.Stealing? && !s.workers[w].at.InIdle? && WorkerOk(s, w)
    ensures WorkerOk(WorkerStep(s, w, victim, flag), w)
  {
  }

  lemma ScanWorkers(s: State, w: nat, victim: nat, flag: bool, v: nat)
    requires Inv(s) && w < |s.workers| && !s.workers[w].at.Stealing? && !s.workers[w].at.InIdle? && v < |s.workers|
    ensures WorkerOk(WorkerStep(s, w, victim, flag), v)
  {
    assert WorkerOk(s, v);
    if v == w {
      ScanOwn(s, w, victim, flag);
    } else {
      var s' := WorkerStep(s, w, victim, flag);
      assert s'.workers[v] == s.workers[v] && s'.subs == s.subs;
    }
  }

  /** Scanning leaves submissions alone and only shrinks the queue it takes from. */
  lemma ScanKept(s: State, w: nat, victim: nat, flag: bool)
    requires Inv(s) && w < |s.workers| && !s.workers[w].at.Stealing? && !s.workers[w].at.InIdle?
    ensures Inv(WorkerStep(s, w, victim, flag))
  {
    var s' := WorkerStep(s, w, victim, flag);
    assert WorkerOk(s, w);
    forall v | 0 <= v < |s'.workers|
      ensures WorkerOk(s', v)
    {
      ScanWorkers(s, w, victim, flag, v);
    }
    forall x | x in s'.global
      ensures GlobalItemOk(s', x)
    {
      assert GlobalItemOk(s, x);
    }
    forall k | 0 <= k < |s.subs|
      ensures SubOk(s', k)
    {
      assert SubOk(s, k);
    }
  }

  /** So does taking from a peer, or giving up and going idle. */
  lemma StealKept(s: State, w: nat, victim: nat, flag: bool)
    requires Inv(s) && w < |s.workers| && s.workers[w].at.Stealing?
    ensures Inv(WorkerStep(s, w, victim, flag))
  {
    var s' := WorkerStep(s, w, victim, flag);
    assert WorkerOk(s, w);
    I.StepsKeepOk(s.workers[w].idle, flag);
    forall v | 0 <= v < |s'.workers|
      ensures WorkerOk(s', v)
    {
      assert WorkerOk(s, v);
    }
    forall x | x in s'.global
      ensures GlobalItemOk(s', x)
    {
      assert GlobalItemOk(s, x);
    }
    forall k | 0 <= k < |s.subs|
      ensures SubOk(s', k)
    {
      assert SubOk(s, k);
    }
  }

  /** A step of enter_idle. */
  lemma IdleKept(s: State, w: nat, victim: nat, flag: bool)
    requires Inv(s) && w < |s.workers| && s.workers[w].at.InIdle?
    ensures Inv(WorkerStep(s, w, victim, flag))
  {
    var s' := WorkerStep(s, w, victim, flag);
    assert WorkerOk(s, w);
    I.StepsKeepOk(s.workers[w].idle, flag);
    forall v | 0 <= v < |s'.workers|
      ensures WorkerOk(s', v)
    {
      assert WorkerOk(s, v);
    }
    forall x | x in s'.global
      ensures GlobalItemOk(s', x)
    {
      assert GlobalItemOk(s, x);
    }
    forall k | 0 <= k < |s.subs|
      ensures SubOk(s', k)
    {
      assert SubOk(s, k);
    }
  }

  lemma OtherWorkers(s: State, a: Action, v: nat)
    requires |s.workers| > 0 && !a.RunSub? && !a.RunWorker? && v < |s.workers| && WorkerOk(s, v)
    ensures WorkerOk(Step(s, a), v)
  {
    I.StepsKeepOk(s.workers[v].idle, false);
  }

  lemma OtherKept(s: State, a: Action)
    requires Inv(s) && !a.RunSub? && !a.RunWorker?
    ensures Inv(Step(s, a))
  {
    var s' := Step(s, a);
    forall v | 0 <= v < |s'.workers|
      ensures WorkerOk(s', v)
    {
      assert WorkerOk(s, v);
      OtherWorkers(s, a, v);
    }
    forall x | x in s'.global
      ensures GlobalItemOk(s', x)
    {
      assert GlobalItemOk(s, x);
    }
    forall k | 0 <= k < |s'.subs|
      ensures SubOk(s', k)
    {
      assert k < |s.subs| ==> SubOk(s, k);
    }
  }

  lemma StepKept(s: State, a: Action)
    requires Inv(s)
    ensures Inv(Step(s, a))
  {
    if a.RunSub? {
      if a.k < |s.subs| {
        if s.subs[a.k].at.SEnqueue? || s.subs[a.k].at.SPick? {
          EnqueueKept(s, a.k, a.refused);
        } else {
          NotifyKept(s, a.k, a.refused);
        }
      }
    } else if a.RunWorker? {
      if a.w < |s.workers| {
        if s.workers[a.w].at.Stealing? {
          StealKept(s, a.w, a.victim, a.flag);
        } else if s.workers[a.w].at.InIdle? {
          IdleKept(s, a.w, a.victim, a.flag);
        } else {
          ScanKept(s, a.w, a.victim, a.flag);
        }
      }
    } else {
      OtherKept(s, a);
    }
  }

  lemma {:induction false} RunKept(s: State, run: seq<Action>)
    requires Inv(s)
    ensures Inv(Exec(s, run))
  {
    if run != [] {
      RunKept(s, run[..|run| - 1]);
      StepKept(Exec(s, run[..|run| - 1]), run[|run| - 1]);
    }
  }

  // ---- Main results ---------------------------------------------------------------------------------

  predicate Sleeping(wk: Worker) { wk.at.InIdle? && wk.idle.at.Waiting? }

  /** A worker asleep in park has an empty yield queue, and whatever is still in its own ring, or in the global
      ring with it as the worker to notify, belongs to a submission that has not finished notifying it. */
  lemma SleeperMissesNothing(workerCount: nat, localCap: nat, globalCap: nat, run: seq<Action>, w: nat, x: Item)
    requires w < workerCount
    ensures var s := Exec(Init(workerCount, localCap, globalCap), run);
            Sleeping(s.workers[w]) ==>
              && s.workers[w].yieldQ == []
              && (x in s.workers[w].localQ ==>
                    && x.Submitted? && x.k < |s.subs| && s.subs[x.k].dest == ToWorker(w)
                    && !s.subs[x.k].at.SDone?)
              && (x in s.global ==>
                    && x.Submitted? && x.k < |s.subs| && s.subs[x.k].dest == ToGlobal
                    && (s.subs[x.k].at.SPick? || s.subs[x.k].target < workerCount)
                    && (s.subs[x.k].at.SDone? ==> s.subs[x.k].target != w))
  {
    var s0 := Init(workerCount, localCap, globalCap);
    RunKept(s0, run);
    var s := Exec(s0, run);
    assert WorkerOk(s, w);
    if x in s.global {
      assert GlobalItemOk(s, x);
    }
  }

  /** No stranded work: when every worker sleeps and no submission is in flight, all queues are empty. */
  lemma NoStrandedWork(workerCount: nat, localCap: nat, globalCap: nat, run: seq<Action>)
    requires workerCount > 0
    ensures var s := Exec(Init(workerCount, localCap, globalCap), run);
            (forall w :: 0 <= w < workerCount ==> Sleeping(s.workers[w])) &&
            (forall k :: 0 <= k < |s.subs| ==> s.subs[k].at.SDone?) ==>
              s.global == [] &&
              forall w :: 0 <= w < workerCount ==> s.workers[w].localQ == [] && s.workers[w].yieldQ == []
  {
    var s := Exec(Init(workerCount, localCap, globalCap), run);
    if (forall w :: 0 <= w < workerCount ==> Sleeping(s.workers[w])) &&
       (forall k :: 0 <= k < |s.subs| ==> s.subs[k].at.SDone?) {
      if s.global != [] {
        var x := s.global[0];
        SleeperMissesNothing(workerCount, localCap, globalCap, run, 0, x);
        SleeperMissesNothing(workerCount, localCap, globalCap, run, s.subs[x.k].target, x);
      }
      forall w | 0 <= w < workerCount
        ensures s.workers[w].localQ == [] && s.workers[w].yieldQ == []
      {
        var q := s.workers[w].localQ;
        SleeperMissesNothing(workerCount, localCap, globalCap, run, w, if q == [] then Inner(0) else q[0]);
      }
    }
  }
}
