/**
 The polled loop tasks of the A72 core: the main loop checks, runs and resets each task, and the tick
 interrupt may come between any two of those steps.
 */
module LoopTasks {
  import opened Words
  import opened TickScheduler

  /** Where the main loop is. */
  datatype Pc = Check(task: nat) | Call(task: nat) | Reset(task: nat)

  /** A task program was called when this many ticks had passed since start-up. */
  datatype Start = Start(task: nat, tick: nat)

  /** `lastReset` remembers the tick of each timer's last reset; the program keeps only `times`. */
  datatype State = State(pc: Pc, times: seq<word>, ticks: nat, lastReset: seq<nat>, log: seq<Start>)

  datatype Step = Isr | Main

  /** With no task at all the loop stays at its entry. */
  predicate Shaped(s: State, periods: seq<word>) {
    && |s.times| == |s.lastReset| == |periods|
    && (s.pc.task < |periods| || (periods == [] && s.pc == Check(0)))
  }

  /** The next task to check; after the last one the loop is entered again. */
  function NextCheck(i: nat, n: nat): Pc
    requires i < n
  {
    if i + 1 == n then Check(0) else Check(i + 1)
  }

  function Next(s: State, periods: seq<word>, step: Step): (t: State)
    requires Shaped(s, periods)
    ensures Shaped(t, periods)
  {
    match step
    case Isr => s.(times := CountedUp(s.times, |s.times|), ticks := s.ticks + 1)
    case Main =>
      if periods == [] then s else
      match s.pc
      case Check(i) => s.(pc := if Due(s.times[i], periods[i]) then Call(i) else NextCheck(i, |periods|))
      case Call(i) => s.(pc := Reset(i), log := s.log + [Start(i, s.ticks)])
      case Reset(i) =>
        s.(pc := NextCheck(i, |periods|), times := s.times[i := 0], lastReset := s.lastReset[i := s.ticks])
  }

  /** At start-up every timer is 0 and the loop is at its first check. */
  function Initial(n: nat): State {
    State(Check(0), seq(n, _ => 0), 0, seq(n, _ => 0), [])
  }

  function Exec(periods: seq<word>, steps: seq<Step>): (s: State)
    ensures Shaped(s, periods)
  {
    if steps == [] then Initial(|periods|)
    else Next(Exec(periods, steps[..|steps| - 1]), periods, steps[|steps| - 1])
  }

  // ---------------------------------------------------------------- the timers

  /** A timer that passed its test has really run for the period, however often it or its product wrapped. */
  lemma DueIsNotEarly(elapsed: nat, period: word)
    requires Due(elapsed % TWO_32, period)
    ensures elapsed * SOFT_INT_TIME_US >= period
  {
    assert elapsed % TWO_32 <= elapsed;
    assert (elapsed % TWO_32 * SOFT_INT_TIME_US) % TWO_32 <= elapsed % TWO_32 * SOFT_INT_TIME_US;
  }

  /** The first count of ticks at which the 32-bit product has wrapped: it is then 704. */
  const FIRST_WRAP := 4294968

  /** The test in terms of the ticks really elapsed: only their product with the tick length is reduced. */
  lemma DueByElapsed(elapsed: nat, period: word)
    ensures Due(elapsed % TWO_32, period) <==> (elapsed * SOFT_INT_TIME_US) % TWO_32 >= period
  {
    var turns, rest := elapsed / TWO_32, elapsed % TWO_32;
    var q, r := rest * SOFT_INT_TIME_US / TWO_32, rest * SOFT_INT_TIME_US % TWO_32;
    assert elapsed * SOFT_INT_TIME_US == TWO_32 * (turns * SOFT_INT_TIME_US + q) + r;
    ModUnique(elapsed * SOFT_INT_TIME_US, TWO_32, turns * SOFT_INT_TIME_US + q, r);
  }

  /** Up to the first wrap the test is exact. */
  lemma DueIsExactEarlyOn(elapsed: nat, period: word)
    requires elapsed < FIRST_WRAP
    ensures Due(elapsed % TWO_32, period) <==> elapsed * SOFT_INT_TIME_US >= period
  {}

  /** At the first wrap it fails for every period but the shortest, so for every legal one but 0. */
  lemma MissedAtFirstWrapIff(period: word)
    ensures !Due(FIRST_WRAP % TWO_32, period) <==> period > 704
  {
    assert FIRST_WRAP * SOFT_INT_TIME_US == TWO_32 + 704;
  }

  /**
   For every period that registration accepts: the test is exact for all of the first `n` ticks after a
   reset if and only if the period is 0 or `n` stays below the first wrap.
   */
  lemma ExactUpToIff(period: word, n: nat)
    requires period % SOFT_INT_TIME_US == 0
    ensures (forall e: nat :: e <= n ==> (Due(e % TWO_32, period) <==> e * SOFT_INT_TIME_US >= period))
            <==> period == 0 || n < FIRST_WRAP
  {
    if period != 0 {
      if n < FIRST_WRAP {
        forall e: nat | e <= n ensures Due(e % TWO_32, period) <==> e * SOFT_INT_TIME_US >= period {
          DueIsExactEarlyOn(e, period);
        }
      } else {
        MissedAtFirstWrapIff(period);
        assert FIRST_WRAP * SOFT_INT_TIME_US >= period;
      }
    }
  }

  /** The timers count the ticks since their resets, modulo 2^32. */
  ghost predicate TimersTrue(s: State) {
    && |s.times| == |s.lastReset|
    && forall i :: 0 <= i < |s.times| ==> s.lastReset[i] <= s.ticks && s.times[i] == (s.ticks - s.lastReset[i]) % TWO_32
  }

  /** Every start so far came before its timer's last reset, except the one not yet reset; and no two are too close. */
  ghost predicate Spaced(s: State, periods: seq<word>) {
    && Shaped(s, periods) && TimersTrue(s)
    && (s.pc.Call? ==> (s.ticks - s.lastReset[s.pc.task]) * SOFT_INT_TIME_US >= periods[s.pc.task])
    && (forall k :: 0 <= k < |s.log| ==> s.log[k].task < |periods| && s.log[k].tick <= s.ticks)
    && (forall k :: 0 <= k < |s.log| && s.pc != Reset(s.log[k].task) ==> s.log[k].tick <= s.lastReset[s.log[k].task])
    && (forall k, l :: 0 <= k < l < |s.log| && s.log[k].task == s.log[l].task ==>
         s.log[k].tick <= s.log[l].tick
         && (s.log[l].tick - s.log[k].tick) * SOFT_INT_TIME_US >= periods[s.log[l].task])
  }

  lemma NextKeepsTimers(s: State, periods: seq<word>, step: Step)
    requires Shaped(s, periods) && TimersTrue(s)
    ensures TimersTrue(Next(s, periods, step))
  {
    if step.Isr? {
      forall i | 0 <= i < |s.times|
        ensures Inc(s.times[i]) == (s.ticks + 1 - s.lastReset[i]) % TWO_32
      {
        IncWraps(s.ticks - s.lastReset[i]);
      }
    }
  }

  lemma NextKeepsSpaced(s: State, periods: seq<word>, step: Step)
    requires Spaced(s, periods)
    ensures Spaced(Next(s, periods, step), periods)
  {
    NextKeepsTimers(s, periods, step);
    if step.Main? && s.pc.Check? && periods != [] && Due(s.times[s.pc.task], periods[s.pc.task]) {
      DueIsNotEarly(s.ticks - s.lastReset[s.pc.task], periods[s.pc.task]);
    }
  }

  lemma {:induction false} ExecSpaced(periods: seq<word>, steps: seq<Step>)
    ensures Spaced(Exec(periods, steps), periods)
  {
    if steps != [] {
      ExecSpaced(periods, steps[..|steps| - 1]);
      NextKeepsSpaced(Exec(periods, steps[..|steps| - 1]), periods, steps[|steps| - 1]);
    }
  }

  /**
   A loop task never starts early: wherever the interrupts fall, two starts of the same task are at
   least its period apart, even after the timer or its product has wrapped.
   */
  lemma NeverEarly(periods: seq<word>, steps: seq<Step>, k: nat, l: nat)
    requires k < l < |Exec(periods, steps).log|
    requires Exec(periods, steps).log[k].task == Exec(periods, steps).log[l].task < |periods|
    ensures var log := Exec(periods, steps).log;
      (log[l].tick - log[k].tick) * SOFT_INT_TIME_US >= periods[log[l].task]
  {
    ExecSpaced(periods, steps);
  }

  /** The tick interrupts of a run. */
  function Isrs(steps: seq<Step>): nat {
    if steps == [] then 0
    else Isrs(steps[..|steps| - 1]) + if steps[|steps| - 1] == Isr then 1 else 0
  }

  /** The tick interrupts since the main loop last reset task `i`, or since start-up, counted off the steps alone. */
  function SinceReset(periods: seq<word>, steps: seq<Step>, i: nat): nat {
    if steps == [] then 0
    else
      var before := steps[..|steps| - 1];
      match steps[|steps| - 1]
      case Isr => SinceReset(periods, before, i) + 1
      case Main => if Exec(periods, before).pc == Reset(i) then 0 else SinceReset(periods, before, i)
  }

  /** One step, as the timer of task `i` sees it: only an interrupt or its own reset changes it. */
  lemma TimerNext(s: State, periods: seq<word>, step: Step, i: nat)
    requires Shaped(s, periods) && i < |periods|
    ensures var t := Next(s, periods, step);
      && (step == Isr ==> t.times[i] == Inc(s.times[i]) && t.ticks == s.ticks + 1 && t.lastReset[i] == s.lastReset[i])
      && (step == Main ==> t.ticks == s.ticks)
      && (step == Main && s.pc == Reset(i) ==> t.times[i] == 0 && t.lastReset[i] == s.ticks)
      && (step == Main && s.pc != Reset(i) ==> t.times[i] == s.times[i] && t.lastReset[i] == s.lastReset[i])
  {}

  /** Over every run: each task's timer counts the interrupts since its own reset, whatever other tasks do. */
  lemma {:induction false} TimerIsSinceReset(periods: seq<word>, steps: seq<Step>, i: nat)
    requires i < |periods|
    ensures var s := Exec(periods, steps);
      && s.times[i] == SinceReset(periods, steps, i) % TWO_32
      && s.ticks == Isrs(steps) && s.ticks - s.lastReset[i] == SinceReset(periods, steps, i)
  {
    if steps != [] {
      TimerIsSinceReset(periods, steps[..|steps| - 1], i);
      TimerNext(Exec(periods, steps[..|steps| - 1]), periods, steps[|steps| - 1], i);
      IncWraps(SinceReset(periods, steps[..|steps| - 1], i));
    }
  }

  /** What the main loop does next, from where it is after a run. */
  function NextPc(periods: seq<word>, steps: seq<Step>): Pc {
    Next(Exec(periods, steps), periods, Main).pc
  }

  /** Over every run: a check calls its task exactly if the interrupts since its reset, times 1000, reach the period. */
  lemma CheckCallsIff(periods: seq<word>, steps: seq<Step>, i: nat)
    requires i < |periods| && Exec(periods, steps).pc == Check(i)
    ensures NextPc(periods, steps) ==
      if (SinceReset(periods, steps, i) * 1000) % 0x1_0000_0000 >= periods[i] then Call(i)
      else Check(if i + 1 == |periods| then 0 else i + 1)
  {
    TimerIsSinceReset(periods, steps, i);
    DueByElapsed(SinceReset(periods, steps, i), periods[i]);
  }

  /** Over every run: a called task is reset, and the next one checked; an interrupt moves the loop nowhere. */
  lemma CallThenReset(periods: seq<word>, steps: seq<Step>, i: nat)
    requires i < |periods|
    ensures Exec(periods, steps).pc == Call(i) ==> NextPc(periods, steps) == Reset(i)
    ensures Exec(periods, steps).pc == Reset(i) ==>
      NextPc(periods, steps) == Check(if i + 1 == |periods| then 0 else i + 1)
    ensures Next(Exec(periods, steps), periods, Isr).pc == Exec(periods, steps).pc
  {}

  /** Over every run: a check made before the first wrap calls its task exactly when the task is due. */
  lemma CheckIsExactEarlyOn(periods: seq<word>, steps: seq<Step>, i: nat)
    requires i < |periods| && Exec(periods, steps).pc == Check(i)
    requires SinceReset(periods, steps, i) < 4294968
    ensures NextPc(periods, steps) == Call(i) <==> SinceReset(periods, steps, i) * 1000 >= periods[i]
  {
    CheckCallsIff(periods, steps, i);
    assert SinceReset(periods, steps, i) * 1000 < 0x1_0000_0000;
  }

  /** Over every run: a check made at the first wrap passes over its task, though it is due, unless the period is 0. */
  lemma CheckMissesAtFirstWrap(periods: seq<word>, steps: seq<Step>, i: nat)
    requires i < |periods| && Exec(periods, steps).pc == Check(i)
    requires periods[i] > 0 && periods[i] % 1000 == 0
    requires SinceReset(periods, steps, i) == 4294968
    ensures SinceReset(periods, steps, i) * 1000 >= periods[i]
    ensures NextPc(periods, steps) == Check(if i + 1 == |periods| then 0 else i + 1)
  {
    CheckCallsIff(periods, steps, i);
  }

  lemma {:induction false} LogGrows(periods: seq<word>, steps: seq<Step>, n: nat)
    requires n <= |steps|
    ensures Exec(periods, steps[..n]).log <= Exec(periods, steps).log
  {
    if n == |steps| {
      assert steps[..n] == steps;
    } else {
      LogGrows(periods, steps[..|steps| - 1], n);
      assert steps[..|steps| - 1][..n] == steps[..n];
    }
  }

  /** Step `p` of the run calls the program of task `i`. */
  predicate Calls(periods: seq<word>, steps: seq<Step>, p: nat, i: nat) {
    p < |steps| && steps[p] == Main && Exec(periods, steps[..p]).pc == Call(i)
  }

  lemma CallIsLogged(periods: seq<word>, steps: seq<Step>, p: nat, i: nat)
    requires Calls(periods, steps, p, i) && i < |periods|
    ensures var n := |Exec(periods, steps[..p]).log|;
      && Exec(periods, steps[..p + 1]).log == Exec(periods, steps[..p]).log + [Start(i, Isrs(steps[..p]))]
      && n < |Exec(periods, steps).log| && Exec(periods, steps).log[n] == Start(i, Isrs(steps[..p]))
  {
    assert steps[..p + 1][..p] == steps[..p];
    TimerIsSinceReset(periods, steps[..p], i);
    LogGrows(periods, steps, p + 1);
  }

  /**
   Counted off the steps alone: between any two calls of the same task there are enough interrupts for its
   period, wherever they fall, even after the timer or its product has wrapped.
   */
  lemma CallsApart(periods: seq<word>, steps: seq<Step>, p: nat, q: nat, i: nat)
    requires i < |periods| && p < q && Calls(periods, steps, p, i) && Calls(periods, steps, q, i)
    ensures (Isrs(steps[..q]) - Isrs(steps[..p])) * 1000 >= periods[i]
  {
    CallIsLogged(periods, steps, p, i);
    CallIsLogged(periods, steps, q, i);
    LogGrows(periods, steps[..q], p + 1);
    assert steps[..q][..p + 1] == steps[..p + 1];
    NeverEarly(periods, steps, |Exec(periods, steps[..p]).log|, |Exec(periods, steps[..q]).log|);
  }

  function Ticks(n: nat): (t: seq<Step>)
    ensures |t| == n
  {
    seq(n, _ => Isr)
  }

  lemma {:induction false} AfterTicks(periods: seq<word>, n: nat)
    requires periods != []
    ensures Exec(periods, Ticks(n)).pc == Check(0) && SinceReset(periods, Ticks(n), 0) == n
  {
    if n > 0 {
      AfterTicks(periods, n - 1);
      assert Ticks(n)[..n - 1] == Ticks(n - 1);
    }
  }

  /** And there is such a run, whatever the tasks: the loop comes to its first check only after that many ticks. */
  lemma MissIsReachable(periods: seq<word>)
    requires periods != [] && periods[0] > 0 && periods[0] % 1000 == 0
    ensures var steps := Ticks(4294968);
      && Exec(periods, steps).pc == Check(0) && SinceReset(periods, steps, 0) * 1000 >= periods[0]
      && NextPc(periods, steps) == Check(if |periods| == 1 then 0 else 1)
  {
    AfterTicks(periods, 4294968);
    CheckMissesAtFirstWrap(periods, Ticks(4294968), 0);
  }

  // ---------------------------------------------------------------- the main loop

  class MainLoop {
    const periods: seq<word>
    var taskTime: seq<word>
    ghost var steps: seq<Step>

    /** The program's timers are those of the run so far. */
    ghost predicate At(pc: Pc)
      reads this
    {
      Exec(periods, steps).pc == pc && Exec(periods, steps).times == taskTime
    }

    /** The tasks whose program has been called, in order. */
    ghost function Called(): seq<nat>
      reads this
    {
      CalledTasks(Exec(periods, steps).log)
    }

    constructor (periods: seq<word>)
      ensures this.periods == periods && At(Check(0)) && steps == []
    {
      this.periods, taskTime, steps := periods, seq(|periods|, _ => 0), [];
    }

    ghost method Record(step: Step)
      modifies this`steps
      ensures steps == old(steps) + [step]
      ensures Exec(periods, steps) == Next(Exec(periods, old(steps)), periods, step)
    {
      assert (steps + [step])[..|steps|] == steps;
      steps := steps + [step];
    }

    /** Any number of tick interrupts. */
    method Interrupts(ghost pc: Pc)
      requires At(pc)
      modifies this
      ensures At(pc) && Called() == old(Called())
    {
      var n: nat := *;
      while n > 0
        invariant At(pc) && Called() == old(Called())
      {
        taskTime := CountedUp(taskTime, |taskTime|);
        Record(Isr);
        n := n - 1;
      }
    }

    /** The check of one task, its call and its reset, with interrupts before each. */
    method RunTask(i: nat) returns (called: bool)
      requires i < |periods| && At(Check(i))
      modifies this
      ensures At(NextCheck(i, |periods|))
      ensures Called() == old(Called()) + if called then [i] else []
    {
      Interrupts(Check(i));
      called := Due(taskTime[i], periods[i]);
      Record(Main);
      if called {
        Interrupts(Call(i));
        CallProgram(i);
        Interrupts(Reset(i));
        taskTime := taskTime[i := 0];
        Record(Main);
      }
    }

    method CallProgram(i: nat)
      requires At(Call(i))
      modifies this
      ensures At(Reset(i)) && Called() == old(Called()) + [i]
    {
      ghost var s := Exec(periods, steps);
      Record(Main);
      assert Exec(periods, steps).log == s.log + [Start(i, s.ticks)];
    }

    /** Task `i` of a pass that has called the tasks `done` so far. */
    method RunNext(i: nat, done: seq<nat>, ghost before: seq<nat>) returns (called: seq<nat>)
      requires i < |periods| && At(Check(i)) && Called() == before + done && IncreasingBelow(done, i)
      modifies this
      ensures At(NextCheck(i, |periods|)) && Called() == before + called && IncreasingBelow(called, i + 1)
    {
      var ran := RunTask(i);
      IncreasingNext(done, i);
      called := done;
      if ran {
        called := done + [i];
        assert before + called == before + done + [i];
      }
    }

    /** One pass over the loop tasks; `called` lists the tasks whose program was called, in order. */
    method RunLoopTasks() returns (called: seq<nat>)
      requires At(Check(0))
      modifies this
      ensures At(Check(0)) && Called() == old(Called()) + called
      ensures IncreasingBelow(called, |periods|)
    {
      ghost var before := Called();
      called := [];
      var i := 0;
      while i < |periods|
        invariant 0 <= i <= |periods| && At(if i == |periods| then Check(0) else Check(i))
        invariant Called() == before + called
        invariant IncreasingBelow(called, i)
      {
        called := RunNext(i, called, before);
        i := i + 1;
      }
    }
  }

  predicate IncreasingBelow(s: seq<nat>, n: nat) {
    && (forall k :: 0 <= k < |s| ==> s[k] < n)
    && (forall k, l :: 0 <= k < l < |s| ==> s[k] < s[l])
  }

  lemma IncreasingNext(s: seq<nat>, n: nat)
    requires IncreasingBelow(s, n)
    ensures IncreasingBelow(s, n + 1) && IncreasingBelow(s + [n], n + 1)
  {}

  function CalledTasks(log: seq<Start>): seq<nat> {
    seq(|log|, i requires 0 <= i < |log| => log[i].task)
  }
}
