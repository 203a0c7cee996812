/** What becomes of the work given to work_stealing_executor.cc: every queue hands out its items in the order in which
    it accepted them, and every accepted item is executed exactly once. */
module WorkLedger {
  import opened WorkStealing

  /** What a queue holds. */
  function Contents(s: State, p: Place): seq<Item> {
    match p
    case YieldOf(w) => if w < |s.workers| then s.workers[w].yieldQ else []
    case RingOf(w) => if w < |s.workers| then s.workers[w].localQ else []
    case GlobalRing => s.global
  }

  /** The items a log has for one queue. */
  function Of(log: seq<Entry>, p: Place): seq<Item> {
    if log == [] then []
    else Of(log[..|log| - 1], p) + if log[|log| - 1].place == p then [log[|log| - 1].x] else []
  }

  /** How many workers are executing e. */
  function InHand(ws: seq<Worker>, e: Entry): nat {
    if ws == [] then 0 else InHand(ws[..|ws| - 1], e) + if ws[|ws| - 1].at == Running(e) then 1 else 0
  }

  predicate InOrder(s: State, p: Place) { Of(s.taken, p) + Contents(s, p) == Of(s.accepted, p) }

  /** What was taken has been executed or is in hand. */
  predicate Balanced(s: State, e: Entry) {
    multiset(s.taken)[e] == multiset(s.executed)[e] + InHand(s.workers, e)
  }

  ghost predicate Ledger(s: State) { (forall p :: InOrder(s, p)) && forall e :: Balanced(s, e) }

  // ---- Each step keeps the order ---------------------------------------------------------------------------

  lemma OfSnoc(log: seq<Entry>, e: Entry, p: Place)
    ensures Of(log + [e], p) == Of(log, p) + if e.place == p then [e.x] else []
  {
    assert (log + [e])[..|log|] == log;
  }

  /** The step changes no queue. */
  ghost predicate Quiet(s: State, s': State) {
    s'.accepted == s.accepted && s'.taken == s.taken && forall p :: Contents(s', p) == Contents(s, p)
  }

  /** The step adds `e` to its queue. */
  ghost predicate Adds(s: State, s': State, e: Entry) {
    && s'.accepted == s.accepted + [e] && s'.taken == s.taken
    && Contents(s', e.place) == Contents(s, e.place) + [e.x]
    && forall p :: p != e.place ==> Contents(s', p) == Contents(s, p)
  }

  /** The step takes `e` from the front of its queue. */
  ghost predicate Takes(s: State, s': State, e: Entry) {
    && s'.accepted == s.accepted && s'.taken == s.taken + [e]
    && Contents(s, e.place) == [e.x] + Contents(s', e.place)
    && forall p :: p != e.place ==> Contents(s', p) == Contents(s, p)
  }

  lemma AddsKept(s: State, s': State, e: Entry, p: Place)
    requires Adds(s, s', e) && InOrder(s, p)
    ensures InOrder(s', p)
  {
    OfSnoc(s.accepted, e, p);
  }

  lemma TakesKept(s: State, s': State, e: Entry, p: Place)
    requires Takes(s, s', e) && InOrder(s, p)
    ensures InOrder(s', p)
  {
    OfSnoc(s.taken, e, p);
  }

  /** A submission puts its item in, or changes no queue. */
  lemma SubActs(s: State, k: nat, refused: bool)
    requires k < |s.subs| && |s.workers| > 0
    ensures var s', dest := SubStep(s, k, refused), s.subs[k].dest;
            var e := Entry(if dest.ToGlobal? then GlobalRing else RingOf(dest.w), Submitted(k));
            var cap := if dest.ToGlobal? then s.globalCap else s.localCap;
            if s.subs[k].at.SEnqueue? && (dest.ToGlobal? || dest.w < |s.workers|)
               && Admits(Contents(s, e.place), cap, refused)
            then Adds(s, s', e)
            else Quiet(s, s')
  {
    if !s.subs[k].at.SEnqueue? {
      NotifyIsQuiet(s, k, refused);
    }
  }

  lemma NotifyIsQuiet(s: State, k: nat, refused: bool)
    requires k < |s.subs| && |s.workers| > 0 && !s.subs[k].at.SEnqueue?
    ensures Quiet(s, SubStep(s, k, refused))
  {
  }

  lemma TakeOwn(s: State, w: nat, victim: nat, flag: bool)
    requires w < |s.workers| && (s.workers[w].at.AtLoop? || s.workers[w].at.ScanLocal?)
    ensures var s' := WorkerStep(s, w, victim, flag);
            if s'.workers[w].at.Running? then Takes(s, s', s'.workers[w].at.e) else Quiet(s, s')
  {
  }

  lemma TakeGlobal(s: State, w: nat, victim: nat, flag: bool)
    requires w < |s.workers| && s.workers[w].at.ScanGlobal?
    ensures var s' := WorkerStep(s, w, victim, flag);
            if s'.workers[w].at.Running? then Takes(s, s', s'.workers[w].at.e) else Quiet(s, s')
  {
  }

  lemma TakeFromPeer(s: State, w: nat, victim: nat, flag: bool)
    requires w < |s.workers| && s.workers[w].at.Stealing?
    ensures var s' := WorkerStep(s, w, victim, flag);
            if s'.workers[w].at.Running? then Takes(s, s', s'.workers[w].at.e) else Quiet(s, s')
  {
  }

  lemma TakeNothing(s: State, w: nat, victim: nat, flag: bool)
    requires w < |s.workers| && (s.workers[w].at.InIdle? || s.workers[w].at.Running?)
    ensures var s' := WorkerStep(s, w, victim, flag);
            !s'.workers[w].at.Running? && Quiet(s, s')
  {
  }

  /** A worker's step changes no queue, or takes the front of one and goes on to execute it. */
  lemma WorkerActs(s: State, w: nat, victim: nat, flag: bool)
    requires w < |s.workers|
    ensures var s' := WorkerStep(s, w, victim, flag);
            if s'.workers[w].at.Running? then Takes(s, s', s'.workers[w].at.e) else Quiet(s, s')
  {
    match s.workers[w].at
    case AtLoop => TakeOwn(s, w, victim, flag);
    case ScanLocal => TakeOwn(s, w, victim, flag);
    case ScanGlobal => TakeGlobal(s, w, victim, flag);
    case Stealing => TakeFromPeer(s, w, victim, flag);
    case _ => TakeNothing(s, w, victim, flag);
  }

  lemma OtherActs(s: State, a: Action)
    requires |s.workers| > 0 && !a.RunSub? && !a.RunWorker?
    ensures var s' := Step(s, a);
            Quiet(s, s') ||
            (s.accepted < s'.accepted && Adds(s, s', s'.accepted[|s'.accepted| - 1]))
  {
    var s' := Step(s, a);
    if |s'.accepted| > |s.accepted| {
      assert Adds(s, s', s'.accepted[|s.accepted|]);
    }
  }

  lemma OrderKept(s: State, a: Action, p: Place)
    requires |s.workers| > 0 && InOrder(s, p)
    ensures InOrder(Step(s, a), p)
  {
    var s' := Step(s, a);
    if a.RunSub? {
      if a.k < |s.subs| {
        SubActs(s, a.k, a.refused);
        if s'.accepted != s.accepted {
          AddsKept(s, s', s'.accepted[|s.accepted|], p);
        }
      }
    } else if a.RunWorker? {
      if a.w < |s.workers| {
        WorkerActs(s, a.w, a.victim, a.flag);
        if s'.taken != s.taken {
          TakesKept(s, s', s'.taken[|s.taken|], p);
        }
      }
    } else {
      OtherActs(s, a);
      if s'.accepted != s.accepted {
        AddsKept(s, s', s'.accepted[|s.accepted|], p);
      }
    }
  }

  // ---- ... and the account of what is executed -----------------------------------------------------------------

  lemma {:induction false} InHandUpdate(ws: seq<Worker>, w: nat, wk: Worker, e: Entry)
    requires w < |ws|
    ensures InHand(ws[w := wk], e) + (if ws[w].at == Running(e) then 1 else 0)
         == InHand(ws, e) + if wk.at == Running(e) then 1 else 0
  {
    var m := |ws| - 1;
    if w < m {
      InHandUpdate(ws[..m], w, wk, e);
      assert ws[w := wk][..m] == ws[..m][w := wk];
    } else {
      assert ws[w := wk][..m] == ws[..m];
    }
  }

  lemma {:induction false} InHandSame(ws: seq<Worker>, ws': seq<Worker>, e: Entry)
    requires |ws| == |ws'| && forall w :: 0 <= w < |ws| ==> ws'[w].at == ws[w].at
    ensures InHand(ws', e) == InHand(ws, e)
  {
    if ws != [] {
      var m := |ws| - 1;
      InHandSame(ws[..m], ws'[..m], e);
    }
  }

  /** Only a worker's own step changes where it is. */
  lemma OthersStay(s: State, a: Action, w: nat)
    requires |s.workers| > 0 && w < |s.workers| && !(a.RunWorker? && a.w == w)
    ensures Step(s, a).workers[w].at == s.workers[w].at
  {
  }

  lemma SameLogs(s: State, a: Action)
    requires |s.workers| > 0 && !(a.RunWorker? && a.w < |s.workers|)
    ensures Step(s, a).executed == s.executed && Step(s, a).taken == s.taken
  {
  }

  /** A worker that runs something finishes it; one that does not may take something. */
  lemma WorkerLogs(s: State, w: nat, victim: nat, flag: bool)
    requires w < |s.workers|
    ensures var s' := WorkerStep(s, w, victim, flag);
            var at, at' := s.workers[w].at, s'.workers[w].at;
            && s'.executed == s.executed + (if at.Running? then [at.e] else [])
            && s'.taken == s.taken + (if at'.Running? then [at'.e] else [])
  {
  }

  lemma Carried(log: seq<Entry>, at: WorkerAt, e: Entry)
    ensures multiset(log + if at.Running? then [at.e] else [])[e]
         == multiset(log)[e] + if at == Running(e) then 1 else 0
  {
  }

  /** Worker w finishes what it ran, or takes something, or neither; the others stay where they are. */
  predicate Moves(s: State, s': State, w: nat) {
    && w < |s.workers| == |s'.workers|
    && (forall v :: 0 <= v < |s.workers| && v != w ==> s'.workers[v].at == s.workers[v].at)
    && s'.executed == s.executed + (if s.workers[w].at.Running? then [s.workers[w].at.e] else [])
    && s'.taken == s.taken + (if s'.workers[w].at.Running? then [s'.workers[w].at.e] else [])
  }

  lemma MovesKeep(s: State, s': State, w: nat, e: Entry)
    requires Balanced(s, e) && Moves(s, s', w)
    ensures Balanced(s', e)
  {
    InHandSame(s.workers[w := s'.workers[w]], s'.workers, e);
    InHandUpdate(s.workers, w, s'.workers[w], e);
    Carried(s.executed, s.workers[w].at, e);
    Carried(s.taken, s'.workers[w].at, e);
  }

  lemma AccountKept(s: State, a: Action, e: Entry)
    requires |s.workers| > 0 && Balanced(s, e)
    ensures Balanced(Step(s, a), e)
  {
    var s' := Step(s, a);
    forall v | 0 <= v < |s.workers| && !(a.RunWorker? && a.w == v)
      ensures s'.workers[v].at == s.workers[v].at
    {
      OthersStay(s, a, v);
    }
    if a.RunWorker? && a.w < |s.workers| {
      WorkerLogs(s, a.w, a.victim, a.flag);
      MovesKeep(s, s', a.w, e);
    } else {
      InHandSame(s.workers, s'.workers, e);
      SameLogs(s, a);
    }
  }

  lemma {:induction false} LedgerKept(s: State, run: seq<Action>)
    requires |s.workers| > 0 && Ledger(s)
    ensures Ledger(Exec(s, run))
  {
    if run != [] {
      var t, a := Exec(s, run[..|run| - 1]), run[|run| - 1];
      LedgerKept(s, run[..|run| - 1]);
      forall p
        ensures InOrder(Step(t, a), p)
      {
        OrderKept(t, a, p);
      }
      forall e
        ensures Balanced(Step(t, a), e)
      {
        AccountKept(t, a, e);
      }
    }
  }

  lemma {:induction false} NobodyRuns(ws: seq<Worker>, e: Entry)
    requires forall w :: 0 <= w < |ws| ==> !ws[w].at.Running?
    ensures InHand(ws, e) == 0
  {
    if ws != [] {
      NobodyRuns(ws[..|ws| - 1], e);
    }
  }

  lemma InitLedger(workerCount: nat, localCap: nat, globalCap: nat)
    ensures Ledger(Init(workerCount, localCap, globalCap))
  {
    forall e
      ensures Balanced(Init(workerCount, localCap, globalCap), e)
    {
      NobodyRuns(Init(workerCount, localCap, globalCap).workers, e);
    }
  }

  // ---- Main results ------------------------------------------------------------------------------------------

  lemma {:induction false} CountOf(log: seq<Entry>, e: Entry)
    ensures multiset(log)[e] == multiset(Of(log, e.place))[e.x]
  {
    if log != [] {
      var m := |log| - 1;
      assert log == log[..m] + [log[m]];
      CountOf(log[..m], e);
    }
  }

  /** In every run, each queue has handed out a prefix of what it accepted, in that order, and holds the rest; and every
      item has been accepted as often as it was executed, is being executed, or waits in its queue. */
  lemma NothingLostOrRepeated(workerCount: nat, localCap: nat, globalCap: nat, run: seq<Action>, e: Entry)
    requires workerCount > 0
    ensures var s := Exec(Init(workerCount, localCap, globalCap), run);
            && Of(s.taken, e.place) + Contents(s, e.place) == Of(s.accepted, e.place)
            && multiset(s.accepted)[e]
               == multiset(s.executed)[e] + InHand(s.workers, e) + multiset(Contents(s, e.place))[e.x]
  {
    var s := Exec(Init(workerCount, localCap, globalCap), run);
    InitLedger(workerCount, localCap, globalCap);
    LedgerKept(Init(workerCount, localCap, globalCap), run);
    assert InOrder(s, e.place);
    CountOf(s.taken, e);
    CountOf(s.accepted, e);
    assert Balanced(s, e);
  }

  /** When every worker sleeps and no submission is in flight, every accepted item has been executed exactly once. */
  lemma AllWorkDone(workerCount: nat, localCap: nat, globalCap: nat, run: seq<Action>)
    requires workerCount > 0
    ensures var s := Exec(Init(workerCount, localCap, globalCap), run);
            (forall w :: 0 <= w < workerCount ==> Sleeping(s.workers[w])) &&
            (forall k :: 0 <= k < |s.subs| ==> s.subs[k].at.SDone?) ==>
              multiset(s.executed) == multiset(s.accepted)
  {
    var s := Exec(Init(workerCount, localCap, globalCap), run);
    if (forall w :: 0 <= w < workerCount ==> Sleeping(s.workers[w])) &&
       (forall k :: 0 <= k < |s.subs| ==> s.subs[k].at.SDone?) {
      NoStrandedWork(workerCount, localCap, globalCap, run);
      forall e
        ensures multiset(s.executed)[e] == multiset(s.accepted)[e]
      {
        NobodyRuns(s.workers, e);
        NothingLostOrRepeated(workerCount, localCap, globalCap, run, e);
      }
    }
  }

  /** What a worker at the head of its loop will execute next: its yield queue comes before its ring, and that before
      the global ring. */
  function Next(s: State, w: nat): seq<Entry>
    requires w < |s.workers|
  {
    if s.workers[w].yieldQ != [] then [Entry(YieldOf(w), s.workers[w].yieldQ[0])]
    else if s.workers[w].localQ != [] then [Entry(RingOf(w), s.workers[w].localQ[0])]
    else if s.global != [] then [Entry(GlobalRing, s.global[0])]
    else []
  }

  /** The next step of a worker that has not found anything yet. */
  function Look(s: State, w: nat): (s': State)
    requires w < |s.workers|
    ensures |s'.workers| == |s.workers|
  {
    if s.workers[w].at.Running? then s else WorkerStep(s, w, w, false)
  }

  lemma LookIs(s: State, w: nat)
    requires w < |s.workers|
    ensures var wk, s' := s.workers[w], Look(s, w);
            && (wk.at.AtLoop? && wk.yieldQ == [] ==> s' == SetWorker(s, w, wk.(at := ScanLocal)))
            && (wk.at.ScanLocal? && wk.localQ == [] ==> s' == SetWorker(s, w, wk.(at := ScanGlobal)))
            && (wk.at.ScanGlobal? && s.global == [] ==> s' == SetWorker(s, w, wk.(at := Stealing)))
            && (wk.at.AtLoop? && wk.yieldQ != [] ==> s'.workers[w].at == Running(Entry(YieldOf(w), wk.yieldQ[0])))
            && (wk.at.ScanLocal? && wk.localQ != [] ==> s'.workers[w].at == Running(Entry(RingOf(w), wk.localQ[0])))
            && (wk.at.ScanGlobal? && s.global != [] ==> s'.workers[w].at == Running(Entry(GlobalRing, s.global[0])))
  {
  }

  lemma QuietThenTakes(s: State, w: nat, at: WorkerAt, s': State, e: Entry)
    requires w < |s.workers| && Takes(SetWorker(s, w, s.workers[w].(at := at)), s', e)
    ensures Takes(s, s', e)
  {
    forall p
      ensures Contents(SetWorker(s, w, s.workers[w].(at := at)), p) == Contents(s, p)
    {
    }
  }

  /** Undisturbed, a worker at the head of its loop takes the first item there is, in that order of the queues, and
      goes on to execute it; if there is none it comes to look at its peers. */
  lemma ScanFindsNext(s: State, w: nat)
    requires w < |s.workers| && s.workers[w].at.AtLoop?
    ensures var s' := Look(Look(Look(s, w), w), w);
            if Next(s, w) == [] then s' == SetWorker(s, w, s.workers[w].(at := Stealing))
            else s'.workers[w].at == Running(Next(s, w)[0]) && Takes(s, s', Next(s, w)[0])
  {
    var s1 := Look(s, w);
    var s2 := Look(s1, w);
    LookIs(s, w);
    LookIs(s1, w);
    LookIs(s2, w);
    if s.workers[w].yieldQ != [] {
      TakeOwn(s, w, w, false);
    } else if s.workers[w].localQ != [] {
      TakeOwn(s1, w, w, false);
      QuietThenTakes(s, w, ScanLocal, s2, Next(s, w)[0]);
    } else if s.global != [] {
      TakeGlobal(s2, w, w, false);
      QuietThenTakes(s, w, ScanGlobal, Look(s2, w), Next(s, w)[0]);
    }
  }

  /** A worker that looks at a peer with work takes the front of the peer's ring. */
  lemma StealTakesFront(s: State, w: nat, victim: nat)
    requires w < |s.workers| && s.workers[w].at.Stealing?
    requires victim < |s.workers| && victim != w && s.workers[victim].localQ != []
    ensures var s', e := WorkerStep(s, w, victim, false), Entry(RingOf(victim), s.workers[victim].localQ[0]);
            s'.workers[w].at == Running(e) && Takes(s, s', e)
  {
    TakeFromPeer(s, w, victim, false);
  }

  // ---- Submissions -----------------------------------------------------------------------------------------------

  function PlaceOf(dest: Dest): Place { if dest.ToGlobal? then GlobalRing else RingOf(dest.w) }

  /** What a submission has put in stands in the log of its destination, once, and only after its enqueue. */
  predicate SubmittedOk(s: State, e: Entry) {
    e.x.Submitted? ==>
      && multiset(s.accepted)[e] <= 1
      && (e in s.accepted ==>
            && e.x.k < |s.subs| && e.place == PlaceOf(s.subs[e.x.k].dest) && !s.subs[e.x.k].at.SEnqueue?)
  }

  lemma SubMoves(s: State, a: Action, k: nat)
    requires |s.workers| > 0 && k < |s.subs|
    ensures var s' := Step(s, a);
            && k < |s'.subs| && s'.subs[k].dest == s.subs[k].dest
            && (!s.subs[k].at.SEnqueue? ==> !s'.subs[k].at.SEnqueue?)
            && (a.RunSub? && a.k == k ==> !s'.subs[k].at.SEnqueue?)
  {
    if a.RunWorker? && a.w < |s.workers| {
      WorkerLeavesSubs(s, a.w, a.victim, a.flag);
    }
  }

  lemma WorkerLeavesSubs(s: State, w: nat, victim: nat, flag: bool)
    requires w < |s.workers|
    ensures WorkerStep(s, w, victim, flag).subs == s.subs
  {
  }

  lemma AcceptedGrows(s: State, a: Action)
    requires |s.workers| > 0
    ensures var s' := Step(s, a);
            || s'.accepted == s.accepted
            || exists e :: s'.accepted == s.accepted + [e] &&
                 (e.x.Submitted? ==> a.RunSub? && a.k < |s.subs| && s.subs[a.k].at.SEnqueue?
                                     && e == Entry(PlaceOf(s.subs[a.k].dest), Submitted(a.k)))
  {
    var s' := Step(s, a);
    if a.RunSub? && a.k < |s.subs| {
      SubActs(s, a.k, a.refused);
    } else if s'.accepted != s.accepted {
      var e := s'.accepted[|s.accepted|];
      assert s'.accepted == s.accepted + [e];
    }
  }

  lemma SubmittedKept(s: State, a: Action, e: Entry)
    requires |s.workers| > 0 && SubmittedOk(s, e)
    ensures SubmittedOk(Step(s, a), e)
  {
    AcceptedGrows(s, a);
    if e.x.Submitted? {
      if e.x.k < |s.subs| {
        SubMoves(s, a, e.x.k);
      }
    }
  }

  /** In every run a submission is accepted at most once, by the queue it is meant for, and not before its enqueue. */
  lemma {:induction false} SubmittedOnce(workerCount: nat, localCap: nat, globalCap: nat, run: seq<Action>, e: Entry)
    requires workerCount > 0
    ensures SubmittedOk(Exec(Init(workerCount, localCap, globalCap), run), e)
  {
    if run != [] {
      SubmittedOnce(workerCount, localCap, globalCap, run[..|run| - 1], e);
      SubmittedKept(Exec(Init(workerCount, localCap, globalCap), run[..|run| - 1]), run[|run| - 1], e);
    }
  }

  /** A worker that gives up looking parks, and one whose park returns begins its scan anew. */
  lemma ParksAndComesBack(s: State, w: nat, victim: nat, flag: bool)
    requires w < |s.workers|
    ensures var wk, wk' := s.workers[w], WorkerStep(s, w, victim, flag).workers[w];
            && (wk.at.Stealing? && flag ==> wk' == wk.(at := InIdle, idle := I.Enter(wk.idle)))
            && (wk.at.InIdle? ==>
                  wk'.idle == I.OwnerStep(wk.idle, flag) && wk'.at == if wk'.idle.at.Outside? then AtLoop else InIdle)
  {
  }
}
