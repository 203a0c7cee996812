/** adaptive_idle.cc: a worker that spins, then yields, then sleeps on a condition variable, and any number of
    notifiers.  A section under park_mutex_ is one step; so is each eventfd read or write and each
    notify_one. */
module AdaptiveIdle {

  datatype Level = LActive | LSpin | LYield | LPark

  /** Where the single parking owner is.  `Waiting(g)` is asleep in the condition wait with captured
      generation g; `Woken(g)` has been woken (by notify_one or spuriously) and must test its predicate. */
  datatype OwnerAt = Outside | Spinning | Yielding | AtPark | Waiting(g: nat) | Woken(g: nat)

  /** `answered` is history: the generation at the owner's latest return from a park. */
  datatype Idle = Idle(level: Level, pending: bool, generation: nat, events: nat, at: OwnerAt, answered: nat)

  const FRESH: Idle := Idle(LActive, false, 0, 0, Outside, 0)

  // ---- The owner ------------------------------------------------------------------------------------

  function Enter(i: Idle): Idle {
    var level := if i.level.LActive? then LSpin else i.level;
    i.(level := level, at := if level.LSpin? then Spinning else if level.LYield? then Yielding else AtPark)
  }

  /** One test of the spin or yield loop: out of rounds when `last`, otherwise a read of the eventfd, which also ends
      the loop if it finds anything.  Either way out, the level moves on. */
  function Poll(i: Idle, last: bool): Idle
    requires i.at.Spinning? || i.at.Yielding?
  {
    if last || i.events > 0 then
      i.(events := if last then i.events else 0, level := if i.at.Spinning? then LYield else LPark, at := Outside)
    else i
  }

  /** The locked section of idle_park up to the wait. */
  function ParkSection(i: Idle): Idle {
    if i.pending then i.(pending := false, level := LActive, at := Outside, answered := i.generation)
    else if i.events > 0 then i.(events := 0, level := LActive, at := Outside, answered := i.generation)
    else i.(at := Waiting(i.generation))
  }

  /** The wait predicate, tested with the mutex held again. */
  function Recheck(i: Idle): Idle
    requires i.at.Woken?
  {
    if i.generation != i.at.g then i.(level := LActive, at := Outside, answered := i.generation)
    else i.(at := Waiting(i.at.g))
  }

  function Wake(i: Idle): Idle {
    if i.at.Waiting? then i.(at := Woken(i.at.g)) else i
  }

  /** The owner's next step inside enter_idle; `flag` ends a polling loop. */
  function OwnerStep(i: Idle, flag: bool): Idle {
    match i.at
    case Outside => i
    case Spinning => Poll(i, flag)
    case Yielding => Poll(i, flag)
    case AtPark => ParkSection(i)
    case Waiting(_) => i
    case Woken(_) => Recheck(i)
  }

  // ---- A notifier -----------------------------------------------------------------------------------

  function NotifyLock(i: Idle): Idle { i.(pending := true, generation := i.generation + 1) }

  function NotifyWrite(i: Idle): Idle { i.(events := i.events + 1) }

  function NotifyOne(i: Idle): Idle { Wake(i) }

  // ---- What the owner's and the notifiers' steps keep ------------------------------------------------

  predicate Asleep(i: Idle) { i.at.Waiting? || i.at.Woken? }

  /** A notification has arrived that the next test of the owner will see. */
  predicate WakeDue(i: Idle) {
    if Asleep(i) then i.generation > i.at.g else i.pending
  }

  predicate Ok(i: Idle) {
    && i.answered <= i.generation
    && (Asleep(i) ==> i.at.g == i.answered && (i.generation == i.at.g ==> !i.pending))
    && (i.generation > i.answered ==> WakeDue(i))
  }

  lemma StepsKeepOk(i: Idle, flag: bool)
    requires Ok(i)
    ensures Ok(OwnerStep(i, flag)) && (i.at.Outside? ==> Ok(Enter(i)))
    ensures Ok(NotifyLock(i)) && Ok(NotifyWrite(i)) && Ok(Wake(i))
  {
  }

  // ---- The owner with its notifiers -------------------------------------------------------------------

  datatype NotifierAt = NIdle | NWrite | NOne

  datatype State = State(idle: Idle, notifiers: seq<NotifierAt>)

  datatype Action = CallEnterIdle | RunOwner(flag: bool) | SpuriousWake | CallNotify(n: nat) | RunNotifier(n: nat)

  function Step(s: State, a: Action): State {
    match a
    case CallEnterIdle => if s.idle.at.Outside? then s.(idle := Enter(s.idle)) else s
    case RunOwner(flag) => s.(idle := OwnerStep(s.idle, flag))
    case SpuriousWake => s.(idle := Wake(s.idle))
    case CallNotify(n) =>
      if n < |s.notifiers| && s.notifiers[n].NIdle? then
        State(NotifyLock(s.idle), s.notifiers[n := NWrite])
      else s
    case RunNotifier(n) =>
      if n >= |s.notifiers| then s
      else match s.notifiers[n]
        case NIdle => s
        case NWrite => State(NotifyWrite(s.idle), s.notifiers[n := NOne])
        case NOne => State(NotifyOne(s.idle), s.notifiers[n := NIdle])
  }

  function Exec(s: State, run: seq<Action>): State {
    if run == [] then s else Step(Exec(s, run[..|run| - 1]), run[|run| - 1])
  }

  function Init(notifierCount: nat): State { State(FRESH, seq(notifierCount, _ => NIdle)) }

  /** Some notifier has changed the generation and has yet to call notify_one. */
  predicate Owed(s: State) { exists n :: 0 <= n < |s.notifiers| && !s.notifiers[n].NIdle? }

  predicate Inv(s: State) {
    && Ok(s.idle)
    && (s.idle.at.Waiting? && s.idle.generation != s.idle.at.g ==> Owed(s))
  }

  lemma StepKept(s: State, a: Action)
    requires Inv(s)
    ensures Inv(Step(s, a))
  {
    var s' := Step(s, a);
    StepsKeepOk(s.idle, a.RunOwner? && a.flag);
    if s'.idle.at.Waiting? && s'.idle.generation != s'.idle.at.g {
      if a.CallNotify? && s' != s {
        assert s'.notifiers[a.n].NWrite?;
      } else {
        var n :| 0 <= n < |s.notifiers| && !s.notifiers[n].NIdle?;
        assert !s'.notifiers[n].NIdle?;
      }
    }
  }

  lemma {:induction false} RunKept(s: State, run: seq<Action>)
    requires Inv(s)
    ensures Inv(Exec(s, run))
  {
    if run != [] {
      RunKept(s, run[..|run| - 1]);
      StepKept(Exec(s, run[..|run| - 1]), run[|run| - 1]);
    }
  }

  /** No wakeup is lost, in any interleaving: an owner asleep with its captured generation has no pending
      notification and has answered every earlier notify; with a newer generation some notifier still owes it
      a notify_one, so it cannot sleep on once all notifiers are done. */
  lemma NoLostWakeup(notifierCount: nat, run: seq<Action>)
    ensures var s := Exec(Init(notifierCount), run);
            s.idle.at.Waiting? ==>
              && (s.idle.generation == s.idle.at.g ==> !s.idle.pending && s.idle.answered == s.idle.generation)
              && (s.idle.generation != s.idle.at.g ==> Owed(s))
  {
    RunKept(Init(notifierCount), run);
  }

  /** Each notify makes the current or the next park return: while a notify is unanswered, an owner about to
      park will not sleep, one that has been woken leaves, and one still asleep is owed a notify_one. */
  lemma NotifyEndsPark(notifierCount: nat, run: seq<Action>)
    ensures var s := Exec(Init(notifierCount), run);
            s.idle.generation > s.idle.answered ==>
              match s.idle.at
              case Waiting(_) => Owed(s)
              case Woken(_) => OwnerStep(s.idle, false).at.Outside?
              case AtPark => OwnerStep(s.idle, false).at.Outside?
              case _ => s.idle.pending && ParkSection(s.idle).at.Outside?
  {
    RunKept(Init(notifierCount), run);
  }

  // ---- Nobody leaves a park without a notification --------------------------------------------------------

  predicate Parked(i: Idle) { i.at.AtPark? || i.at.Waiting? || i.at.Woken? }

  /** A park returns, in any run, only while a notify is pending or unanswered or an event is unread. */
  lemma ParkReturnsNotified(notifierCount: nat, run: seq<Action>, a: Action)
    ensures var s := Exec(Init(notifierCount), run);
            Parked(s.idle) && !Parked(Step(s, a).idle) ==>
              s.idle.pending || s.idle.events > 0 || s.idle.generation > s.idle.answered
  {
    RunKept(Init(notifierCount), run);
  }

  predicate Unnotified(s: State) {
    && !s.idle.pending && s.idle.events == 0 && s.idle.generation == 0
    && (s.idle.at.Waiting? || s.idle.at.Woken? ==> s.idle.at.g == 0)
    && forall n :: 0 <= n < |s.notifiers| ==> s.notifiers[n].NIdle?
  }

  /** Without a notify no park ever returns. */
  lemma {:induction false} NoNotifyNoReturn(notifierCount: nat, run: seq<Action>, a: Action)
    requires !a.CallNotify? && forall i :: 0 <= i < |run| ==> !run[i].CallNotify?
    ensures var s := Exec(Init(notifierCount), run);
            Unnotified(s) && (Parked(s.idle) ==> Parked(Step(s, a).idle))
  {
    if run != [] {
      NoNotifyNoReturn(notifierCount, run[..|run| - 1], a);
    }
  }

  /** How a polling loop ends: out of rounds, or because it finds an event, which it consumes. */
  lemma PollEnds(i: Idle, last: bool)
    requires i.at.Spinning? || i.at.Yielding?
    ensures var i' := OwnerStep(i, last);
            && (i'.at.Outside? <==> last || i.events > 0)
            && i'.events == (if last then i.events else 0)
            && (i'.at.Outside? ==> i'.level == if i.at.Spinning? then LYield else LPark)
  {
  }

  /** The second call after one that spins parks; a park that returns makes the next call spin again. */
  lemma IdleEscalates(i: Idle)
    requires i.at.Outside? && i.level.LActive?
    ensures Enter(i).at.Spinning?
    ensures Enter(OwnerStep(Enter(i), true)).at.Yielding?
    ensures Enter(OwnerStep(Enter(OwnerStep(Enter(i), true)), true)).at.AtPark?
    ensures forall j: Idle, flag :: Parked(j) && !Parked(OwnerStep(j, flag)) ==> OwnerStep(j, flag).level.LActive?
  {
  }

  /** An undisturbed notify is pending, counts, leaves an event, and wakes a sleeping owner. */
  lemma NotifyAlone(s: State, n: nat)
    requires n < |s.notifiers| && s.notifiers[n].NIdle?
    ensures var r := RunNotifier(n);
            var s' := Step(Step(Step(s, CallNotify(n)), r), r);
            && s'.notifiers == s.notifiers && s'.idle.pending && s'.idle.generation == s.idle.generation + 1
            && s'.idle.events == s.idle.events + 1 && s'.idle.level == s.idle.level
            && s'.idle.at == if s.idle.at.Waiting? then Woken(s.idle.at.g) else s.idle.at
  {
    var r := RunNotifier(n);
    var s2 := Step(Step(s, CallNotify(n)), r);
    assert s2.notifiers == s.notifiers[n := NOne];
    assert s2.notifiers[n := NIdle] == s.notifiers;
  }

  /** What makes a park return at once: a pending notify, an unread event. */
  function Notices(i: Idle): nat { (if i.pending then 1 else 0) + if i.events > 0 then 1 else 0 }

  /** A park returns at once exactly if there is such a notice, and uses up one: at the latest the third in a row
      sleeps. */
  lemma ParkUsesUp(i: Idle, flag: bool)
    requires i.at.AtPark?
    ensures var i' := OwnerStep(i, flag);
            && (i'.at.Outside? <==> Notices(i) > 0) && (i'.at.Outside? || i'.at == Waiting(i.generation))
            && (i'.at.Outside? ==> Notices(i') == Notices(i) - 1)
  {
  }
}
