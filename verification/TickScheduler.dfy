/**
 The soft-tick scheduler of both boards: task registration, the hard-to-soft interrupt prescaler, and
 the tick handler that posts the periodic interrupt tasks, in its two-pass and its one-pass form.
 */
module TickScheduler {
  import opened Words

  const MAX_TASKS := 8
  const SOFT_INT_TIME_US := 1000

  /** The board with the two-pass tick handler, and the bare-metal A72 core with the one-pass one. */
  datatype Board = Tbl | A72 {
    function MaxPriority(): word { if Tbl? then 13 else 7 }
  }

  /** A table slot. A task program is an address; 0 is no program. */
  datatype TaskDef = TaskDef(cfgFlag: word, period: word, timeout: word, pri: word, prog: nat)

  const EMPTY_SLOT := TaskDef(0, 0, 0, 0, 0)

  /** What an interrupt number is bound to. */
  datatype Binding = Binding(vector: nat, prog: nat, pri: word)

  /** The A72 core's own table of interrupt numbers. */
  const A72_VECTORS: seq<nat> := [2, 3, 4, 5, 6, 7, 8, 9]

  // ---------------------------------------------------------------- one tick

  /** The handlers' test, in 32-bit arithmetic. */
  predicate Due(time: word, period: word) {
    (time * SOFT_INT_TIME_US) % TWO_32 >= period
  }

  function TimeAfter(time: word, period: word): word {
    if Due(Inc(time), period) then 0 else Inc(time)
  }

  /** The tasks below `n` whose time has come, in table order. */
  function DueTasks(times: seq<word>, periods: seq<word>, n: nat): seq<nat>
    requires n <= |times| && n <= |periods|
  {
    if n == 0 then []
    else DueTasks(times, periods, n - 1) + if Due(Inc(times[n - 1]), periods[n - 1]) then [n - 1] else []
  }

  /** The timers after a tick of the first `n` tasks. */
  function Ticked(times: seq<word>, periods: seq<word>, n: nat): seq<word>
    requires n <= |times| && n <= |periods|
  {
    seq(|times|, i requires 0 <= i < |times| => if i < n then TimeAfter(times[i], periods[i]) else times[i])
  }

  /** The timers between the passes: all `n` counted up, the first `done` of them examined. */
  function HalfTicked(times: seq<word>, periods: seq<word>, n: nat, done: nat): seq<word>
    requires done <= n <= |times| && n <= |periods|
  {
    seq(|times|, i requires 0 <= i < |times| =>
      if i < done then TimeAfter(times[i], periods[i]) else if i < n then Inc(times[i]) else times[i])
  }

  /** One timer more. */
  lemma TickedNext(times: seq<word>, periods: seq<word>, i: nat)
    requires i < |times| && i < |periods|
    ensures Ticked(times, periods, i)[i] == times[i]
    ensures Ticked(times, periods, i)[i := TimeAfter(times[i], periods[i])] == Ticked(times, periods, i + 1)
  {}

  lemma HalfTickedNext(times: seq<word>, periods: seq<word>, n: nat, i: nat)
    requires i < n <= |times| && n <= |periods|
    ensures var half := HalfTicked(times, periods, n, i);
      && half[i] == Inc(times[i])
      && (if Due(half[i], periods[i]) then half[i := 0] else half) == HalfTicked(times, periods, n, i + 1)
  {}

  /** The timers counted up but not yet examined. */
  function CountedUp(times: seq<word>, n: nat): seq<word> {
    seq(|times|, i requires 0 <= i < |times| => if i < n then Inc(times[i]) else times[i])
  }

  function Vectors(table: seq<nat>, tasks: seq<nat>): seq<nat>
    requires forall k :: 0 <= k < |tasks| ==> tasks[k] < |table|
  {
    seq(|tasks|, k requires 0 <= k < |tasks| => table[tasks[k]])
  }

  lemma {:induction false} DueTasksInRange(times: seq<word>, periods: seq<word>, n: nat)
    requires n <= |times| && n <= |periods|
    ensures forall k :: 0 <= k < |DueTasks(times, periods, n)| ==> DueTasks(times, periods, n)[k] < n
  {
    if n > 0 {
      DueTasksInRange(times, periods, n - 1);
    }
  }

  /** The numbers the one-pass handler computes: task i posts interrupt 2 + i. */
  function OnePassNumbers(): (t: seq<nat>)
    ensures |t| == MAX_TASKS
  {
    seq(MAX_TASKS, i => 2 + i)
  }

  class Scheduler {
    const board: Board
    var loopNumber: byte
    var intrNumber: byte
    const loopDef: array<TaskDef>
    const intrDef: array<TaskDef>
    const loopTime: array<word>
    const intrTime: array<word>
    /** The programs in the run-time tables. */
    var loopProg: seq<nat>
    var intrProg: seq<nat>
    /** The interrupt numbers of this board, one per interrupt task. */
    const vectors: seq<nat>
    /** Interrupts posted so far. */
    var posted: seq<nat>
    /** The prescaler: one soft tick every `interval` hardware interrupts. */
    const interval: word
    var isrCounter: word

    /** The slots in use are exactly the first ones of each table, and hold accepted tasks, in both tables alike. */
    ghost predicate Valid()
      reads this`loopNumber, this`intrNumber, this`loopProg, this`intrProg, loopDef, intrDef
    {
      && loopDef.Length == intrDef.Length == loopTime.Length == intrTime.Length == MAX_TASKS
      && loopDef != intrDef && loopTime != intrTime
      && |vectors| == MAX_TASKS && (board.A72? ==> vectors == A72_VECTORS)
      && PrefixUsed(loopDef[..], loopNumber) && PrefixUsed(intrDef[..], intrNumber)
      && |loopProg| == |intrProg| == MAX_TASKS
      && (forall i :: 0 <= i < loopNumber ==> LoopTaskOk(loopDef[i]) && loopProg[i] == loopDef[i].prog)
      && (forall i :: 0 <= i < intrNumber ==> IntrTaskOk(board, intrDef[i]) && intrProg[i] == intrDef[i].prog)
    }

    constructor (board: Board, vectors: seq<nat>, interval: word)
      requires |vectors| == MAX_TASKS && (board.A72? ==> vectors == A72_VECTORS)
      ensures Valid() && this.board == board && this.vectors == vectors && this.interval == interval
      ensures isrCounter == 0 && loopNumber == intrNumber == 0 && posted == []
      ensures fresh(loopDef) && fresh(intrDef) && fresh(loopTime) && fresh(intrTime)
      ensures forall i :: 0 <= i < MAX_TASKS ==> loopTime[i] == 0 && intrTime[i] == 0
    {
      this.board, this.vectors, this.interval, isrCounter := board, vectors, interval, 0;
      loopNumber, intrNumber, posted := 0, 0, [];
      loopProg, intrProg := seq(MAX_TASKS, _ => 0), seq(MAX_TASKS, _ => 0);
      loopDef := new TaskDef[MAX_TASKS](_ => EMPTY_SLOT);
      intrDef := new TaskDef[MAX_TASKS](_ => EMPTY_SLOT);
      loopTime := new word[MAX_TASKS](_ => 0);
      intrTime := new word[MAX_TASKS](_ => 0);
    }

    /** Accepted exactly when there is a program, both times are whole ticks and a slot is left; it takes that slot. */
    method RegisterLoopTask(prog: nat, period: word, timeout: word) returns (accepted: bool)
      requires Valid()
      modifies this`loopNumber, this`loopProg, loopDef
      ensures Valid()
      ensures accepted <==> prog != 0 && period % 1000 == 0 && timeout % 1000 == 0 && old(loopNumber) < 8
      ensures if accepted
        then loopNumber == old(loopNumber) + 1
             && loopDef[..] == old(loopDef[..])[old(loopNumber) := old(loopDef[loopNumber]).(
                                  cfgFlag := 1, period := period, timeout := timeout, prog := prog)]
        else loopNumber == old(loopNumber) && loopDef[..] == old(loopDef[..])
      ensures loopProg == if accepted then old(loopProg)[old(loopNumber) := prog] else old(loopProg)
    {
      if prog == 0 || period % SOFT_INT_TIME_US != 0 || timeout % SOFT_INT_TIME_US != 0 {
        return false;
      }
      var index := FirstFree(loopDef, loopNumber);
      if index >= MAX_TASKS {
        return false;
      }
      loopDef[index] := loopDef[index].(cfgFlag := 1, period := period, timeout := timeout, prog := prog);
      loopNumber := loopNumber + 1;
      loopProg := loopProg[index := prog];
      accepted := true;
    }

    /** The same for interrupt tasks, which need a period and a priority the board allows. */
    method RegisterIntrTask(prog: nat, pri: word, period: word) returns (accepted: bool)
      requires Valid()
      modifies this`intrNumber, this`intrProg, intrDef
      ensures Valid()
      ensures accepted <==> prog != 0 && period > 0 && period % 1000 == 0
                            && 3 <= pri <= (if board.A72? then 7 else 13) && old(intrNumber) < 8
      ensures if accepted
        then intrNumber == old(intrNumber) + 1
             && intrDef[..] == old(intrDef[..])[old(intrNumber) := old(intrDef[intrNumber]).(
                                  cfgFlag := 1, pri := pri, period := period, prog := prog)]
        else intrNumber == old(intrNumber) && intrDef[..] == old(intrDef[..])
      ensures intrProg == if accepted then old(intrProg)[old(intrNumber) := prog] else old(intrProg)
    {
      if prog == 0 || period == 0 || pri < 3 || pri > board.MaxPriority() || period % SOFT_INT_TIME_US != 0 {
        return false;
      }
      var index := FirstFree(intrDef, intrNumber);
      if index >= MAX_TASKS {
        return false;
      }
      intrDef[index] := intrDef[index].(cfgFlag := 1, pri := pri, period := period, prog := prog);
      intrNumber := intrNumber + 1;
      intrProg := intrProg[index := prog];
      accepted := true;
    }

    /**
     Creates a handler for each interrupt task, in order. `creates` tells which creations succeed; at the
     first that fails the A72 core stops and reports it, and the other board does not return.
     */
    method RegisterIntr(creates: nat -> bool) returns (ok: bool, created: seq<Binding>)
      requires Valid()
      ensures |created| <= intrNumber && (ok <==> |created| == intrNumber)
      ensures forall i :: 0 <= i < |created| ==> creates(i)
      ensures !ok ==> !creates(|created|)
      ensures forall i :: 0 <= i < |created| ==>
        && created[i].prog != 0 && 3 <= created[i].pri <= (if board.A72? then 7 else 13)
        && (board.A72? ==> created[i].vector == 2 + i)
      ensures forall i :: 0 <= i < |created| ==> created[i] == Binding(vectors[i], intrDef[i].prog, intrDef[i].pri)
    {
      created := [];
      var i := 0;
      while i < intrNumber
        invariant 0 <= i <= intrNumber && |created| == i && forall k :: 0 <= k < i ==> creates(k)
        invariant forall k :: 0 <= k < i ==> created[k] == Binding(vectors[k], intrDef[k].prog, intrDef[k].pri)
      {
        if !creates(i) {
          return false, created;
        }
        var vector := if board.A72? then A72_VECTORS[i] else vectors[i];
        created := created + [Binding(vector, intrDef[i].prog, intrDef[i].pri)];
        i := i + 1;
      }
      ok := true;
    }

    /** The periods of the interrupt tasks. */
    ghost function Periods(): (p: seq<word>)
      reads intrDef
      ensures |p| == intrDef.Length
    {
      seq(intrDef.Length, i requires 0 <= i < intrDef.Length reads intrDef => intrDef[i].period)
    }

    /** The tick handler in two passes: count every timer up, then post what is due. */
    method SoftIntTwoPass()
      requires Valid()
      modifies loopTime, intrTime, this`posted
      ensures Valid()
      ensures loopTime[..] == CountedUp(old(loopTime[..]), loopNumber)
      ensures intrTime[..] == Ticked(old(intrTime[..]), Periods(), intrNumber)
      ensures var due := DueTasks(old(intrTime[..]), Periods(), intrNumber);
        && (forall k :: 0 <= k < |due| ==> due[k] < MAX_TASKS)
        && posted == old(posted) + Vectors(vectors, due)
    {
      ghost var times := intrTime[..];
      CountUp(loopTime, loopNumber);
      CountUp(intrTime, intrNumber);
      PostDue(times);
    }

    method PostOne(i: nat)
      requires Valid() && i < intrNumber
      modifies intrTime, this`posted
      ensures var hit := Due(old(intrTime[i]), intrDef[i].period);
        && intrTime[..] == (if hit then old(intrTime[..])[i := 0] else old(intrTime[..]))
        && posted == old(posted) + if hit then [vectors[i]] else []
    {
      if Due(intrTime[i], intrDef[i].period) {
        posted := posted + [vectors[i]];
        intrTime[i] := 0;
      }
    }

    /** The second pass: every due task is posted and its timer restarted. */
    method PostDue(ghost times: seq<word>)
      requires Valid() && |times| == MAX_TASKS && intrTime[..] == CountedUp(times, intrNumber)
      modifies intrTime, this`posted
      ensures Valid()
      ensures intrTime[..] == Ticked(times, Periods(), intrNumber)
      ensures var due := DueTasks(times, Periods(), intrNumber);
        && (forall k :: 0 <= k < |due| ==> due[k] < MAX_TASKS)
        && posted == old(posted) + Vectors(vectors, due)
    {
      ghost var periods := Periods();
      assert CountedUp(times, intrNumber) == HalfTicked(times, periods, intrNumber, 0);
      ghost var due := [];
      var i := 0;
      while i < intrNumber
        invariant 0 <= i <= intrNumber && Periods() == periods
        invariant intrTime[..] == HalfTicked(times, periods, intrNumber, i)
        invariant due == DueTasks(times, periods, i) && forall k :: 0 <= k < |due| ==> due[k] < i
        invariant posted == old(posted) + Vectors(vectors, due)
      {
        ghost var hit := if Due(intrTime[i], intrDef[i].period) then [i] else [];
        HalfTickedNext(times, periods, intrNumber, i);
        VectorsAppend(vectors, due, hit);
        PostOne(i);
        due := due + hit;
        i := i + 1;
      }
      assert HalfTicked(times, periods, intrNumber, intrNumber) == Ticked(times, periods, intrNumber);
    }

    /** One hardware interrupt: every `interval`-th one runs the tick handler. */
    method HardInterrupt()
      requires Valid()
      modifies loopTime, intrTime, this`posted, this`isrCounter
      ensures Valid()
      ensures isrCounter == if Inc(old(isrCounter)) >= interval then 0 else Inc(old(isrCounter))
      ensures Inc(old(isrCounter)) < interval ==>
        intrTime[..] == old(intrTime[..]) && posted == old(posted) && loopTime[..] == old(loopTime[..])
      ensures Inc(old(isrCounter)) >= interval ==>
        var due := DueTasks(old(intrTime[..]), Periods(), intrNumber);
        && intrTime[..] == Ticked(old(intrTime[..]), Periods(), intrNumber)
        && loopTime[..] == CountedUp(old(loopTime[..]), loopNumber)
        && (forall k :: 0 <= k < |due| ==> due[k] < MAX_TASKS)
        && posted == old(posted) + Vectors(vectors, due)
    {
      isrCounter := Inc(isrCounter);
      if isrCounter >= interval {
        isrCounter := 0;
        SoftIntTwoPass();
      }
    }

    /** The tick handler in one pass: each timer is counted up and examined before the next. */
    method SoftIntOnePass()
      requires Valid()
      modifies loopTime, intrTime, this`posted
      ensures Valid()
      ensures loopTime[..] == CountedUp(old(loopTime[..]), loopNumber)
      ensures intrTime[..] == Ticked(old(intrTime[..]), Periods(), intrNumber)
      ensures var due := DueTasks(old(intrTime[..]), Periods(), intrNumber);
        && (forall k :: 0 <= k < |due| ==> due[k] < MAX_TASKS)
        && posted == old(posted) + Vectors(OnePassNumbers(), due)
    {
      CountUp(loopTime, loopNumber);
      CountAndPost();
    }

    method CountAndPostOne(i: nat)
      requires Valid() && i < intrNumber
      modifies intrTime, this`posted
      ensures intrTime[..] == old(intrTime[..])[i := TimeAfter(old(intrTime[i]), intrDef[i].period)]
      ensures posted == old(posted) + if Due(Inc(old(intrTime[i])), intrDef[i].period) then [2 + i] else []
    {
      intrTime[i] := Inc(intrTime[i]);
      if Due(intrTime[i], intrDef[i].period) {
        posted := posted + [2 + i];
        intrTime[i] := 0;
      }
    }

    method CountAndPost()
      requires Valid()
      modifies intrTime, this`posted
      ensures Valid()
      ensures intrTime[..] == Ticked(old(intrTime[..]), Periods(), intrNumber)
      ensures var due := DueTasks(old(intrTime[..]), Periods(), intrNumber);
        && (forall k :: 0 <= k < |due| ==> due[k] < MAX_TASKS)
        && posted == old(posted) + Vectors(OnePassNumbers(), due)
    {
      ghost var times, periods, numbers := intrTime[..], Periods(), OnePassNumbers();
      ghost var due := [];
      var i := 0;
      while i < intrNumber
        invariant 0 <= i <= intrNumber && Periods() == periods
        invariant intrTime[..] == Ticked(times, periods, i)
        invariant due == DueTasks(times, periods, i) && forall k :: 0 <= k < |due| ==> due[k] < i
        invariant posted == old(posted) + Vectors(numbers, due)
      {
        ghost var hit := if Due(Inc(times[i]), periods[i]) then [i] else [];
        TickedNext(times, periods, i);
        VectorsAppend(numbers, due, hit);
        assert numbers[i] == 2 + i;
        CountAndPostOne(i);
        due := due + hit;
        i := i + 1;
      }
    }
  }

  ghost predicate PrefixUsed(table: seq<TaskDef>, n: nat) {
    n <= |table| == MAX_TASKS && forall i :: 0 <= i < MAX_TASKS ==> (table[i].cfgFlag != 0 <==> i < n)
  }

  ghost predicate LoopTaskOk(t: TaskDef) {
    t.prog != 0 && t.period % SOFT_INT_TIME_US == 0 && t.timeout % SOFT_INT_TIME_US == 0
  }

  ghost predicate IntrTaskOk(board: Board, t: TaskDef) {
    && t.prog != 0 && t.period > 0 && t.period % SOFT_INT_TIME_US == 0
    && 3 <= t.pri <= board.MaxPriority()
  }

  /** The search both registrations share. */
  method FirstFree(table: array<TaskDef>, ghost used: nat) returns (index: nat)
    requires table.Length == MAX_TASKS && PrefixUsed(table[..], used)
    ensures index == used
  {
    index := 0;
    while index < MAX_TASKS
      invariant 0 <= index <= used
    {
      assert table[..][index] == table[index];
      if table[index].cfgFlag == 0 {
        break;
      }
      index := index + 1;
    }
  }

  method CountUp(times: array<word>, n: nat)
    requires n <= times.Length
    modifies times
    ensures times[..] == CountedUp(old(times[..]), n)
  {
    var i := 0;
    while i < n
      invariant 0 <= i <= n
      invariant times[..] == CountedUp(old(times[..]), i)
    {
      times[i] := Inc(times[i]);
      i := i + 1;
    }
  }

  // ---------------------------------------------------------------- what a tick does

  /** Exactly the due tasks, each once, in table order. */
  lemma {:induction false} DueTasksExact(times: seq<word>, periods: seq<word>, n: nat)
    requires n <= |times| && n <= |periods|
    ensures var due := DueTasks(times, periods, n);
      && (forall k, l :: 0 <= k < l < |due| ==> due[k] < due[l])
      && (forall i: nat :: i in due <==> i < n && Due(Inc(times[i]), periods[i]))
  {
    DueTasksInRange(times, periods, n);
    if n > 0 {
      DueTasksInRange(times, periods, n - 1);
      DueTasksExact(times, periods, n - 1);
    }
  }

  /** What a tick does to each timer: those of registered tasks count one, and one that is due starts again. */
  lemma TickedAt(times: seq<word>, periods: seq<word>, n: nat, i: nat)
    requires n <= |times| && n <= |periods| && i < |times|
    ensures CountedUp(times, n)[i] == if i < n then (times[i] as int + 1) % 0x1_0000_0000 else times[i]
    ensures i >= n ==> Ticked(times, periods, n)[i] == times[i]
    ensures i < n ==>
      var t := (times[i] as int + 1) % 0x1_0000_0000;
      Ticked(times, periods, n)[i] == if (t * 1000) % 0x1_0000_0000 >= periods[i] then 0 else t
  {
    IncWraps(times[i]);
  }

  /** Which tasks a tick posts, by their timers: exactly the due ones, each once, in table order. */
  lemma PostedAt(times: seq<word>, periods: seq<word>, n: nat, i: nat)
    requires n <= |times| && n <= |periods|
    ensures i in DueTasks(times, periods, n) <==>
      i < n && ((times[i] as int + 1) % 0x1_0000_0000 * 1000) % 0x1_0000_0000 >= periods[i]
  {
    DueTasksExact(times, periods, n);
    if i < n {
      IncWraps(times[i]);
    }
  }

  /** The number the one-pass handler posts for a task is the one its handler was created on. */
  lemma PostedVectorIsBound(due: seq<nat>)
    requires forall k :: 0 <= k < |due| ==> due[k] < MAX_TASKS
    ensures Vectors(OnePassNumbers(), due) == Vectors(A72_VECTORS, due)
  {
    assert OnePassNumbers() == A72_VECTORS;
  }

  /** Both handlers side by side: equal timers and periods give equal timers and the same posts in the same order. */
  method TickBothWays(two: Scheduler, one: Scheduler) returns (ghost due: seq<nat>)
    requires two.Valid() && one.Valid() && one.board.A72?
    requires two != one && two.loopTime != one.loopTime && two.intrTime != one.intrTime
    requires two.loopTime != one.intrTime && two.intrTime != one.loopTime
    requires two.intrNumber == one.intrNumber && two.loopNumber == one.loopNumber
    requires two.intrTime[..] == one.intrTime[..] && two.loopTime[..] == one.loopTime[..]
    requires two.Periods() == one.Periods()
    modifies two.loopTime, two.intrTime, two`posted, one.loopTime, one.intrTime, one`posted
    ensures two.intrTime[..] == one.intrTime[..] && two.loopTime[..] == one.loopTime[..]
    ensures due == DueTasks(old(two.intrTime[..]), two.Periods(), two.intrNumber)
    ensures forall k :: 0 <= k < |due| ==> due[k] < MAX_TASKS
    ensures two.posted == old(two.posted) + Vectors(two.vectors, due)
    ensures one.posted == old(one.posted) + Vectors(one.vectors, due)
  {
    due := DueTasks(two.intrTime[..], two.Periods(), two.intrNumber);
    two.SoftIntTwoPass();
    one.SoftIntOnePass();
    PostedVectorIsBound(due);
  }

  // ---------------------------------------------------------------- whole runs

  /** The prescaler, the interrupt timers, and the tasks posted so far. */
  datatype Clock = Clock(isr: word, times: seq<word>, fired: seq<nat>)

  function AfterInterrupt(c: Clock, interval: word, periods: seq<word>): (d: Clock)
    requires |c.times| == |periods|
    ensures |d.times| == |periods|
  {
    if Inc(c.isr) >= interval then
      Clock(0, Ticked(c.times, periods, |periods|), c.fired + DueTasks(c.times, periods, |periods|))
    else c.(isr := Inc(c.isr))
  }

  /** The clock after `n` hardware interrupts from start-up, with all tasks registered. */
  function After(n: nat, interval: word, periods: seq<word>): (c: Clock)
    ensures |c.times| == |periods|
  {
    if n == 0 then Clock(0, seq(|periods|, _ => 0), [])
    else AfterInterrupt(After(n - 1, interval, periods), interval, periods)
  }

  function Count(log: seq<nat>, i: nat): nat {
    if log == [] then 0 else Count(log[..|log| - 1], i) + if log[|log| - 1] == i then 1 else 0
  }

  lemma {:induction false} CountAppend(a: seq<nat>, b: seq<nat>, i: nat)
    ensures Count(a + b, i) == Count(a, i) + Count(b, i)
  {
    if b == [] {
      assert a + b == a;
    } else {
      CountAppend(a, b[..|b| - 1], i);
      assert (a + b)[..|a + b| - 1] == a + b[..|b| - 1];
    }
  }

  lemma {:induction false} CountDue(times: seq<word>, periods: seq<word>, n: nat, i: nat)
    requires n <= |times| && n <= |periods|
    ensures Count(DueTasks(times, periods, n), i) == if i < n && Due(Inc(times[i]), periods[i]) then 1 else 0
  {
    if n > 0 {
      CountDue(times, periods, n - 1, i);
      var last := if Due(Inc(times[n - 1]), periods[n - 1]) then [n - 1] else [];
      CountAppend(DueTasks(times, periods, n - 1), last, i);
      if last != [] {
        assert last[..0] == [];
      }
    }
  }

  lemma DivNext(n: nat, m: nat)
    requires m > 0
    ensures n % m == m - 1 ==> (n + 1) % m == 0 && (n + 1) / m == n / m + 1
    ensures n % m < m - 1 ==> (n + 1) % m == n % m + 1 && (n + 1) / m == n / m
  {
    NextParts(n, m, n / m, n % m);
  }

  lemma NextParts(n: nat, m: nat, q: nat, r: nat)
    requires n == m * q + r && r < m
    ensures r == m - 1 ==> (n + 1) % m == 0 && (n + 1) / m == q + 1
    ensures r < m - 1 ==> (n + 1) % m == r + 1 && (n + 1) / m == q
  {
    if r == m - 1 {
      assert n + 1 == m * (q + 1);
      ModUnique(n + 1, m, q + 1, 0);
    } else {
      ModUnique(n + 1, m, q, r + 1);
    }
  }

  lemma DivDiv(n: nat, a: nat, b: nat)
    requires a > 0 && b > 0
    ensures a * b > 0 && n / a / b == n / (a * b)
  {
    NestedDiv(n, a, b, n / a, n % a, n / a / b, n / a % b);
  }

  lemma NestedDiv(n: nat, a: nat, b: nat, x: nat, s: nat, q: nat, r: nat)
    requires n == a * x + s && s < a && x == b * q + r && r < b
    ensures a * b > 0 && n / (a * b) == q
  {
    Nested(a, b, q, r, s);
    ModUnique(n, a * b, q, a * r + s);
  }

  lemma Nested(a: nat, b: nat, q: nat, r: nat, s: nat)
    requires r < b && s < a
    ensures a * (b * q + r) + s == (a * b) * q + (a * r + s)
    ensures a * r + s < a * b
  {
    assert a * (r + 1) == a * r + a;
    Monotone(a, r + 1, b);
  }

  /** The ticks per post of a period, and the interrupts per tick: an interval of 0 acts like 1. */
  function TicksPer(period: word): nat { period / SOFT_INT_TIME_US }

  function InterruptsPer(interval: word): nat { if interval == 0 then 1 else interval }

  /**
   The timer of a task as a clock hand: it runs from 0 to its period and starts again, and its product
   with the tick length never wraps.
   */
  lemma HandTurns(time: word, period: word)
    requires period > 0 && period % SOFT_INT_TIME_US == 0 && time < TicksPer(period)
    ensures time * SOFT_INT_TIME_US < TWO_32
    ensures Due(Inc(time), period) <==> time == TicksPer(period) - 1
    ensures TimeAfter(time, period) == if time == TicksPer(period) - 1 then 0 else time + 1
  {
    assert period == TicksPer(period) * SOFT_INT_TIME_US;
    assert Inc(time) * SOFT_INT_TIME_US <= period;
  }

  /** Where division says the prescaler, the timer and the post count of a task stand after n interrupts. */
  ghost predicate ClockAt(c: Clock, n: nat, a: nat, b: nat, i: nat) {
    && a > 0 && b > 0 && i < |c.times|
    && c.isr == n % a && c.times[i] == n / a % b && Count(c.fired, i) == n / a / b
  }

  lemma TickAdvances(c: Clock, n: nat, interval: word, periods: seq<word>, i: nat)
    requires |c.times| == |periods| && i < |periods| && periods[i] > 0 && periods[i] % SOFT_INT_TIME_US == 0
    requires ClockAt(c, n, InterruptsPer(interval), TicksPer(periods[i]), i)
    ensures ClockAt(AfterInterrupt(c, interval, periods), n + 1, InterruptsPer(interval), TicksPer(periods[i]), i)
  {
    var a, b := InterruptsPer(interval), TicksPer(periods[i]);
    DivNext(n, a);
    if c.isr == a - 1 {
      DivNext(n / a, b);
      HandTurns(c.times[i], periods[i]);
      CountDue(c.times, periods, |periods|, i);
      CountAppend(c.fired, DueTasks(c.times, periods, |periods|), i);
    }
  }

  /**
   After n hardware interrupts, for every task: the prescaler and the timer stand where division says,
   and the task has been posted n / interval / (period / 1000) times.
   */
  lemma {:induction false} ClockAfter(n: nat, interval: word, periods: seq<word>, i: nat)
    requires i < |periods| && periods[i] > 0 && periods[i] % SOFT_INT_TIME_US == 0
    ensures ClockAt(After(n, interval, periods), n, InterruptsPer(interval), TicksPer(periods[i]), i)
  {
    var a, b := InterruptsPer(interval), TicksPer(periods[i]);
    assert periods[i] == b * SOFT_INT_TIME_US;
    if n == 0 {
      ModUnique(0, a, 0, 0);
      ModUnique(0, b, 0, 0);
    } else {
      ClockAfter(n - 1, interval, periods, i);
      TickAdvances(After(n - 1, interval, periods), n - 1, interval, periods, i);
    }
  }

  /** The end-to-end rate: one post every interval * (period / 1000) hardware interrupts, exactly. */
  lemma PostRate(n: nat, interval: word, periods: seq<word>, i: nat)
    requires i < |periods| && periods[i] > 0 && periods[i] % SOFT_INT_TIME_US == 0
    ensures InterruptsPer(interval) * TicksPer(periods[i]) > 0
    ensures Count(After(n, interval, periods).fired, i) == n / (InterruptsPer(interval) * TicksPer(periods[i]))
    ensures After(n, interval, periods).times[i] < TicksPer(periods[i])
  {
    ClockAfter(n, interval, periods, i);
    DivDiv(n, InterruptsPer(interval), TicksPer(periods[i]));
    Monotone(InterruptsPer(interval), 1, TicksPer(periods[i]));
  }

  /** The prescaler interval the start-up code derives from an interrupt period of t microseconds. */
  function IntervalFor(t: word): word
    requires t > 0
  {
    1000 / t
  }

  /**
   The time between two posts, in microseconds, is the requested period exactly when t divides 1000.
   The shipped interrupt periods 50, 100, 200 and 1000 all do.
   */
  lemma PeriodExactIff(t: word, period: word)
    requires t > 0 && period > 0 && period % SOFT_INT_TIME_US == 0
    ensures t * (InterruptsPer(IntervalFor(t)) * TicksPer(period)) == period <==> 1000 % t == 0
  {
    var a, b := InterruptsPer(IntervalFor(t)), TicksPer(period);
    assert period == 1000 * b && b > 0;
    assert t * (a * b) == (t * a) * b;
    if t > 1000 {
      assert a == 1;
      ModUnique(1000, t, 0, 1000);
      Monotone(b, 1001, t);
    } else {
      var q := 1000 / t;
      assert 1000 == t * q + 1000 % t;
      assert q > 0;
      assert a == q;
      if 1000 % t != 0 {
        assert t * a < 1000;
        Monotone(b, t * a, 999);
        assert (t * a) * b <= 999 * b;
      }
    }
  }

  lemma Monotone(k: nat, x: nat, y: nat)
    requires x <= y
    ensures k * x <= k * y && x * k <= y * k
  {
    assert k * y == k * x + k * (y - x);
  }

  /** With t dividing 1000, n interrupts post a task n / (period / t) times. */
  lemma PostsPerPeriod(n: nat, t: word, periods: seq<word>, i: nat)
    requires t > 0 && 1000 % t == 0
    requires i < |periods| && periods[i] > 0 && periods[i] % SOFT_INT_TIME_US == 0
    ensures periods[i] / t > 0
    ensures Count(After(n, IntervalFor(t), periods).fired, i) == n / (periods[i] / t)
  {
    var a, b := InterruptsPer(IntervalFor(t)), TicksPer(periods[i]);
    PostRate(n, IntervalFor(t), periods, i);
    PeriodExactIff(t, periods[i]);
    ModUnique(periods[i], t, a * b, 0);
  }

  lemma {:induction false} DueTasksPrefix(times: seq<word>, periods: seq<word>, n: nat, k: nat)
    requires k <= n <= |times| && n <= |periods|
    ensures DueTasks(times[..n], periods[..n], k) == DueTasks(times, periods, k)
  {
    if k > 0 {
      DueTasksPrefix(times, periods, n, k - 1);
    }
  }

  lemma VectorsAppend(table: seq<nat>, a: seq<nat>, b: seq<nat>)
    requires forall k :: 0 <= k < |a| ==> a[k] < |table|
    requires forall k :: 0 <= k < |b| ==> b[k] < |table|
    ensures Vectors(table, a + b) == Vectors(table, a) + Vectors(table, b)
  {}

  /** The scheduler stands where the clock does. */
  ghost predicate Follows(s: Scheduler, c: Clock, posted: seq<nat>)
    requires s.Valid()
    reads s, s.loopDef, s.intrDef, s.intrTime
  {
    && s.isrCounter == c.isr && s.intrTime[..s.intrNumber] == c.times
    && (forall k :: 0 <= k < |c.fired| ==> c.fired[k] < MAX_TASKS)
    && s.posted == posted + Vectors(s.vectors, c.fired)
  }

  lemma TickFollows(times: seq<word>, periods: seq<word>, n: nat, c: Clock, table: seq<nat>)
    requires n <= |times| == |periods| <= |table| && c.times == times[..n]
    requires forall k :: 0 <= k < |c.fired| ==> c.fired[k] < |table|
    ensures var due := DueTasks(times, periods, n);
      && (forall k :: 0 <= k < |due| ==> due[k] < |table|)
      && DueTasks(c.times, periods[..n], n) == due
      && Vectors(table, c.fired + due) == Vectors(table, c.fired) + Vectors(table, due)
    ensures Ticked(times, periods, n)[..n] == Ticked(c.times, periods[..n], n)
  {
    DueTasksInRange(times, periods, n);
    DueTasksPrefix(times, periods, n, n);
    VectorsAppend(table, c.fired, DueTasks(times, periods, n));
  }

  method FollowInterrupt(s: Scheduler, ghost c: Clock, ghost posted: seq<nat>)
    requires s.Valid() && Follows(s, c, posted)
    modifies s.loopTime, s.intrTime, s`posted, s`isrCounter
    ensures s.Valid() && s.Periods() == old(s.Periods())
    ensures Follows(s, AfterInterrupt(c, s.interval, s.Periods()[..s.intrNumber]), posted)
  {
    TickFollows(s.intrTime[..], s.Periods(), s.intrNumber, c, s.vectors);
    s.HardInterrupt();
  }

  /** n hardware interrupts on a scheduler whose tasks were registered before the first: it follows the clock. */
  method RunInterrupts(s: Scheduler, n: nat)
    requires s.Valid() && s.isrCounter == 0 && s.posted == []
    requires forall i :: 0 <= i < s.intrNumber ==> s.intrTime[i] == 0
    modifies s.loopTime, s.intrTime, s`posted, s`isrCounter
    ensures s.Valid()
    ensures Follows(s, After(n, s.interval, s.Periods()[..s.intrNumber]), [])
  {
    ghost var periods := s.Periods();
    var i := 0;
    while i < n
      invariant 0 <= i <= n && s.Valid() && s.Periods() == periods
      invariant Follows(s, After(i, s.interval, periods[..s.intrNumber]), [])
    {
      FollowInterrupt(s, After(i, s.interval, periods[..s.intrNumber]), []);
      i := i + 1;
    }
  }
}
