/** adaptive_idle.cc: how many parks a notification can end.  It sets a flag, counts, and writes an event; a park that
    was asleep returns on the count, the next one on the flag and the one after that on the event. */
module ParkReturns {
  import opened AdaptiveIdle

  /** The step makes a park return. */
  predicate Returns(s: State, a: Action) { Parked(s.idle) && !Parked(Step(s, a).idle) }

  /** How many parks return in a run. */
  function Count(s0: State, run: seq<Action>): nat {
    if run == [] then 0
    else Count(s0, run[..|run| - 1]) + if Returns(Exec(s0, run[..|run| - 1]), run[|run| - 1]) then 1 else 0
  }

  /** Notifiers that have yet to write their event. */
  function Writers(ns: seq<NotifierAt>): nat {
    if ns == [] then 0 else Writers(ns[..|ns| - 1]) + if ns[|ns| - 1].NWrite? then 1 else 0
  }

  lemma {:induction false} WritersUpdate(ns: seq<NotifierAt>, n: nat, at: NotifierAt)
    requires n < |ns|
    ensures Writers(ns[n := at]) + (if ns[n].NWrite? then 1 else 0) == Writers(ns) + if at.NWrite? then 1 else 0
  {
    var m := |ns| - 1;
    if n < m {
      WritersUpdate(ns[..m], n, at);
      assert ns[n := at][..m] == ns[..m][n := at];
    } else {
      assert ns[n := at][..m] == ns[..m];
    }
  }

  /** What past notifications can still bring about. */
  function Stock(s: State): int {
    (if s.idle.pending then 1 else 0) + s.idle.events + Writers(s.notifiers) + (s.idle.generation - s.idle.answered)
  }

  /** Every return is paid for out of the stock, to which a notification adds three. */
  lemma StockStep(s: State, a: Action)
    requires Ok(s.idle)
    ensures var s' := Step(s, a);
            Stock(s') + (if Returns(s, a) then 1 else 0) - 3 * s'.idle.generation <= Stock(s) - 3 * s.idle.generation
  {
    if a.CallNotify? && a.n < |s.notifiers| {
      WritersUpdate(s.notifiers, a.n, NWrite);
    } else if a.RunNotifier? && a.n < |s.notifiers| {
      WritersUpdate(s.notifiers, a.n, Step(s, a).notifiers[a.n]);
    }
  }

  lemma {:induction false} NoWriters(ns: seq<NotifierAt>)
    requires forall n :: 0 <= n < |ns| ==> ns[n].NIdle?
    ensures Writers(ns) == 0
  {
    if ns != [] {
      NoWriters(ns[..|ns| - 1]);
    }
  }

  lemma {:induction false} StockRun(notifierCount: nat, run: seq<Action>)
    ensures var s := Exec(Init(notifierCount), run);
            Ok(s.idle) && Count(Init(notifierCount), run) + Stock(s) <= 3 * s.idle.generation
  {
    RunKept(Init(notifierCount), run);
    if run == [] {
      NoWriters(Init(notifierCount).notifiers);
    } else {
      StockRun(notifierCount, run[..|run| - 1]);
      StockStep(Exec(Init(notifierCount), run[..|run| - 1]), run[|run| - 1]);
    }
  }

  /** In every run at most three parks return for each notification. */
  lemma AtMostThreeEach(notifierCount: nat, run: seq<Action>)
    ensures Count(Init(notifierCount), run) <= 3 * Exec(Init(notifierCount), run).idle.generation
  {
    StockRun(notifierCount, run);
  }

  // ---- Three are possible -----------------------------------------------------------------------------------

  lemma Append(s0: State, run: seq<Action>, a: Action)
    ensures Exec(s0, run + [a]) == Step(Exec(s0, run), a)
    ensures Count(s0, run + [a]) == Count(s0, run) + if Returns(Exec(s0, run), a) then 1 else 0
  {
    assert (run + [a])[..|run|] == run;
  }

  /** One more step, between known states. */
  lemma Next(s0: State, run: seq<Action>, a: Action, s: State, s': State) returns (run': seq<Action>)
    requires Exec(s0, run) == s && Step(s, a) == s' && !Returns(s, a)
    ensures Exec(s0, run') == s' && Count(s0, run') == Count(s0, run)
  {
    Append(s0, run, a);
    run' := run + [a];
  }

  /** An owner between calls comes to park: one call runs out of spinning, the next out of yielding. */
  lemma Approach(s0: State, run: seq<Action>) returns (run': seq<Action>)
    requires Exec(s0, run).idle.at.Outside? && Exec(s0, run).idle.level.LActive?
    ensures var s := Exec(s0, run); Exec(s0, run') == s.(idle := s.idle.(level := LPark, at := AtPark))
    ensures Count(s0, run') == Count(s0, run)
  {
    var s := Exec(s0, run);
    var i, c, t := s.idle, CallEnterIdle, RunOwner(true);
    var s1 := s.(idle := i.(level := LSpin, at := Spinning));
    var s2 := s.(idle := i.(level := LYield, at := Outside));
    var s3 := s.(idle := i.(level := LYield, at := Yielding));
    var s4 := s.(idle := i.(level := LPark, at := Outside));
    run' := Next(s0, run, c, s, s1);
    run' := Next(s0, run', t, s1, s2);
    run' := Next(s0, run', c, s2, s3);
    run' := Next(s0, run', t, s3, s4);
    run' := Next(s0, run', c, s4, s.(idle := i.(level := LPark, at := AtPark)));
  }

  /** The owner falls asleep, is notified and returns. */
  lemma SleepAndReturn(notifierCount: nat) returns (run: seq<Action>)
    requires notifierCount > 0
    ensures Count(Init(notifierCount), run) == 1
    ensures Exec(Init(notifierCount), run) == Init(notifierCount).(idle := Idle(LActive, true, 1, 1, Outside, 1))
  {
    var s0 := Init(notifierCount);
    run := Approach(s0, []);
    var r, n, o := RunOwner(false), CallNotify(0), RunNotifier(0);
    var ns := s0.notifiers;
    var s2 := State(Idle(LPark, false, 0, 0, Waiting(0), 0), ns);
    var s3 := State(Idle(LPark, true, 1, 0, Waiting(0), 0), ns[0 := NWrite]);
    var s4 := State(Idle(LPark, true, 1, 1, Waiting(0), 0), ns[0 := NOne]);
    var s5 := State(Idle(LPark, true, 1, 1, Woken(0), 0), ns);
    assert s3.notifiers[0 := NOne] == ns[0 := NOne];
    assert s4.notifiers[0 := NIdle] == ns;
    run := Next(s0, run, r, State(Idle(LPark, false, 0, 0, AtPark, 0), ns), s2);
    run := Next(s0, run, n, s2, s3);
    run := Next(s0, run, o, s3, s4);
    run := Next(s0, run, o, s4, s5);
    Append(s0, run, r);
    run := run + [r];
  }

  /** One notification that ends three parks: the bound is reached. */
  lemma ThreeFromOne(notifierCount: nat) returns (run: seq<Action>)
    requires notifierCount > 0
    ensures Exec(Init(notifierCount), run).idle.generation == 1 && Count(Init(notifierCount), run) == 3
  {
    var s0, r := Init(notifierCount), RunOwner(false);
    run := SleepAndReturn(notifierCount);
    run := Approach(s0, run);
    Append(s0, run, r);
    run := run + [r];
    run := Approach(s0, run);
    Append(s0, run, r);
    run := run + [r];
  }
}
