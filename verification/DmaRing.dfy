/**
 The block-copy DMA channel: twenty descriptors circulate between the completion ring, the CPU,
 the submit ring and the hardware, which runs at the same time as the CPU.
 */
module DmaRing {
  import opened Words

  const RING_ENTRIES := 20
  const MEMCPY_POLLS := 0x1000000

  /** A transfer request: the part of a descriptor that is rewritten for each copy. */
  datatype Tr = Tr(dst: nat, src: nat, len: nat) {
    predicate Fits(size: nat) { dst + len <= size && src + len <= size }

    /** The request reads or writes this byte. */
    predicate Touches(addr: nat) { dst <= addr < dst + len || src <= addr < src + len }

    /** What is left of the transfer after `n` bytes. */
    function From(n: nat): Tr
      requires n <= len
    {
      Tr(dst + n, src + n, len - n)
    }
  }

  /** The CPU between two ring operations: it may hold a descriptor, filled or not. */
  datatype Cpu = Idle | Holding(d: nat) | Filled(d: nat) {
    function Held(): seq<nat> { if Idle? then [] else [d] }
  }

  /**
   The rings hold descriptor numbers. The hardware fetches descriptors ahead, in order, and has moved
   `done` bytes of the first one it fetched.
   */
  datatype State = State(cq: seq<nat>, fq: seq<nat>, fetched: seq<nat>, done: nat,
                         cpu: Cpu, descs: seq<Tr>, mem: seq<byte>)
  {
    /** The request the hardware is working on. */
    function Current(): Tr
      requires fetched != [] && fetched[0] < |descs|
    {
      descs[fetched[0]]
    }
  }

  datatype Step =
    | Dequeue            // CPU: take a descriptor off the completion ring
    | Fill(tr: Tr)       // CPU: rewrite its transfer request
    | Submit             // CPU: queue it
    | Store(addr: nat, value: byte) // CPU: write a byte that no unfinished request touches
    | Fetch              // hardware: take the next descriptor off the submit ring
    | Move               // hardware: copy one byte
    | Complete           // hardware: return a finished descriptor

  /** The descriptors in the order they circulate: hardware, submit ring, CPU, completion ring. */
  function Circle(s: State): seq<nat> {
    s.fetched + s.fq + s.cpu.Held() + s.cq
  }

  /** `c` lists all twenty descriptors in cyclic order from some first one. */
  predicate Cyclic(c: seq<nat>) {
    && |c| == RING_ENTRIES && c[0] < RING_ENTRIES
    && forall i :: 0 <= i < RING_ENTRIES ==> c[i] == (c[0] + i) % RING_ENTRIES
  }

  ghost predicate Valid(s: State) {
    && Cyclic(Circle(s))
    && |s.descs| == RING_ENTRIES
    && (forall i :: 0 <= i < RING_ENTRIES ==> s.descs[i].Fits(|s.mem|))
    && (if s.fetched == [] then s.done == 0
        else assert s.fetched[0] == Circle(s)[0]; s.done <= s.descs[s.fetched[0]].len)
  }

  /** No descriptor is in two places, or twice in one, and none is lost. */
  lemma CyclicDistinct(c: seq<nat>)
    requires Cyclic(c)
    ensures forall i, j :: 0 <= i < j < RING_ENTRIES ==> c[i] != c[j]
    ensures forall d: nat :: d < RING_ENTRIES ==> d in c
    ensures forall d :: d in c ==> d < RING_ENTRIES
  {
    forall d: nat | d < RING_ENTRIES ensures d in c {
      var i := (d - c[0]) % RING_ENTRIES;
      assert c[i] == d;
    }
  }

  lemma CyclicRotates(c: seq<nat>)
    requires Cyclic(c)
    ensures Cyclic(c[1..] + [c[0]])
  {
    var d := c[1..] + [c[0]];
    forall i | 0 <= i < RING_ENTRIES ensures d[i] == (d[0] + i) % RING_ENTRIES {
      NextInRing(c[0], i);
      assert d[i] == if i == RING_ENTRIES - 1 then c[0] else c[i + 1];
    }
  }

  lemma NextInRing(d: nat, i: nat)
    requires d < RING_ENTRIES && i < RING_ENTRIES
    ensures ((d + 1) % RING_ENTRIES + i) % RING_ENTRIES == (d + 1 + i) % RING_ENTRIES
    ensures i == RING_ENTRIES - 1 ==> (d + 1 + i) % RING_ENTRIES == d
  {}

  // ---------------------------------------------------------------- steps of the CPU and of the hardware

  ghost predicate Enabled(s: State, step: Step)
    requires Valid(s)
  {
    match step
    case Dequeue => s.cpu.Idle? && s.cq != []
    case Fill(tr) => s.cpu.Holding? && tr.Fits(|s.mem|)
    case Submit => s.cpu.Filled?
    case Store(addr, _) => addr < |s.mem| && Untouched(Pending(s), addr)
    case Fetch => s.fq != []
    case Move => s.fetched != [] && s.done < s.Current().len
    case Complete => s.fetched != [] && s.done == s.Current().len
  }

  ghost function Next(s: State, step: Step): (t: State)
    requires Valid(s) && Enabled(s, step)
  {
    match step
    case Dequeue => s.(cpu := Holding(s.cq[0]), cq := s.cq[1..])
    case Fill(tr) =>
      assert Circle(s)[|s.fetched| + |s.fq|] == s.cpu.d;
      s.(cpu := Filled(s.cpu.d), descs := s.descs[s.cpu.d := tr])
    case Submit => s.(cpu := Idle, fq := s.fq + [s.cpu.d])
    case Store(addr, value) => s.(mem := s.mem[addr := value])
    case Fetch => s.(fetched := s.fetched + [s.fq[0]], fq := s.fq[1..])
    case Move =>
      var tr := s.Current().From(s.done);
      s.(mem := s.mem[tr.dst := s.mem[tr.src]], done := s.done + 1)
    case Complete => s.(cq := s.cq + [s.fetched[0]], fetched := s.fetched[1..], done := 0)
  }

  /** Where the CPU's descriptor sits in the circle: behind everything the hardware owns. */
  lemma HeldNotOwnedByHardware(s: State)
    requires Valid(s) && !s.cpu.Idle?
    ensures s.cpu.d < RING_ENTRIES && s.cpu.d !in s.fetched && s.cpu.d !in s.fq && s.cpu.d !in s.cq
  {
    var c, k := Circle(s), |s.fetched| + |s.fq|;
    CyclicDistinct(c);
    assert c[k] == s.cpu.d;
    forall i | 0 <= i < |s.fetched| ensures s.fetched[i] != s.cpu.d { assert c[i] == s.fetched[i]; }
    forall i | 0 <= i < |s.fq| ensures s.fq[i] != s.cpu.d { assert c[|s.fetched| + i] == s.fq[i]; }
    forall i | 0 <= i < |s.cq| ensures s.cq[i] != s.cpu.d { assert c[k + 1 + i] == s.cq[i]; }
  }

  lemma DequeueKeepsCircle(s: State)
    requires Valid(s) && Enabled(s, Dequeue)
    ensures Circle(Next(s, Dequeue)) == Circle(s)
  {
    assert s.cq == [s.cq[0]] + s.cq[1..];
  }

  lemma FetchKeepsCircle(s: State)
    requires Valid(s) && Enabled(s, Fetch)
    ensures Circle(Next(s, Fetch)) == Circle(s)
  {
    assert s.fq == [s.fq[0]] + s.fq[1..];
  }

  lemma CompleteTurnsCircle(s: State)
    requires Valid(s) && Enabled(s, Complete)
    ensures Circle(Next(s, Complete)) == Circle(s)[1..] + [Circle(s)[0]]
  {
    var rest := s.fq + s.cpu.Held() + s.cq;
    assert Circle(s) == s.fetched + rest;
    assert Circle(Next(s, Complete)) == s.fetched[1..] + (rest + [s.fetched[0]]);
  }

  /** Every step keeps the descriptors circulating: only a completion turns the circle, by one place. */
  lemma StepCirculates(s: State, step: Step)
    requires Valid(s) && Enabled(s, step)
    ensures Circle(Next(s, step)) == if step.Complete? then Circle(s)[1..] + [Circle(s)[0]] else Circle(s)
  {
    match step
    case Dequeue =>
      DequeueKeepsCircle(s);
    case Fetch =>
      FetchKeepsCircle(s);
    case Complete =>
      CompleteTurnsCircle(s);
    case _ =>
  }

  lemma StepKeepsValid(s: State, step: Step)
    requires Valid(s) && Enabled(s, step)
    ensures Valid(Next(s, step)) && |Next(s, step).mem| == |s.mem|
  {
    StepCirculates(s, step);
    match step
    case Complete =>
      CyclicRotates(Circle(s));
    case Fill(_) =>
      HeldNotOwnedByHardware(s);
    case Fetch =>
      if s.fetched != [] {
        assert Next(s, step).fetched[0] == s.fetched[0];
      }
    case _ =>
  }

  // ---------------------------------------------------------------- what the copies do

  /** The copy a request stands for, lowest byte first. */
  function Copy(mem: seq<byte>, tr: Tr): (m: seq<byte>)
    requires tr.Fits(|mem|)
    ensures |m| == |mem|
    decreases tr.len
  {
    if tr.len == 0 then mem else Copy(mem[tr.dst := mem[tr.src]], tr.From(1))
  }

  /** Copies applied one after another. */
  function CopyAll(mem: seq<byte>, trs: seq<Tr>): (m: seq<byte>)
    requires forall i :: 0 <= i < |trs| ==> trs[i].Fits(|mem|)
    ensures |m| == |mem|
    decreases |trs|
  {
    if trs == [] then mem else CopyAll(Copy(mem, trs[0]), trs[1..])
  }

  lemma {:induction false} CopyAllAppend(mem: seq<byte>, trs: seq<Tr>, t: Tr)
    requires t.Fits(|mem|) && forall i :: 0 <= i < |trs| ==> trs[i].Fits(|mem|)
    ensures CopyAll(mem, trs + [t]) == Copy(CopyAll(mem, trs), t)
    decreases |trs|
  {
    if trs == [] {
      assert [t][1..] == [];
    } else {
      CopyAllAppend(Copy(mem, trs[0]), trs[1..], t);
      assert (trs + [t])[1..] == trs[1..] + [t];
    }
  }

  /** Copying one byte of the first request leaves the rest of it to be done. */
  lemma CopyFirstByte(mem: seq<byte>, trs: seq<Tr>)
    requires |trs| > 0 && trs[0].len > 0 && trs[0].Fits(|mem|)
    requires forall i :: 0 <= i < |trs| ==> trs[i].Fits(|mem|)
    ensures CopyAll(mem[trs[0].dst := mem[trs[0].src]], trs[0 := trs[0].From(1)]) == CopyAll(mem, trs)
  {
    assert trs[0 := trs[0].From(1)][1..] == trs[1..];
  }

  lemma CopyFirstDone(mem: seq<byte>, trs: seq<Tr>)
    requires |trs| > 0 && trs[0].len == 0 && forall i :: 0 <= i < |trs| ==> trs[i].Fits(|mem|)
    ensures CopyAll(mem, trs[1..]) == CopyAll(mem, trs)
  {}

  /** All bytes of the source moved at once. */
  function BlockMove(mem: seq<byte>, tr: Tr): seq<byte>
    requires tr.Fits(|mem|)
  {
    mem[..tr.dst] + mem[tr.src..tr.src + tr.len] + mem[tr.dst + tr.len..]
  }

  predicate NoOverlap(tr: Tr) { tr.dst + tr.len <= tr.src || tr.src + tr.len <= tr.dst }

  lemma MoveNone(mem: seq<byte>, tr: Tr)
    requires tr.Fits(|mem|) && tr.len == 0
    ensures BlockMove(mem, tr) == mem
  {}

  lemma SlicesAfterFirst(mem: seq<byte>, dst: nat, src: nat, len: nat)
    requires len > 0 && dst + len <= |mem| && src + len <= |mem| && (dst + len <= src || src + len <= dst)
    ensures var m := mem[dst := mem[src]];
      m[..dst + 1] + m[src + 1..src + len] + m[dst + len..] == mem[..dst] + mem[src..src + len] + mem[dst + len..]
  {
    var m := mem[dst := mem[src]];
    assert m[..dst + 1] == mem[..dst] + [mem[src]];
    assert m[src + 1..src + len] == mem[src + 1..src + len] && m[dst + len..] == mem[dst + len..];
    assert mem[src..src + len] == [mem[src]] + mem[src + 1..src + len];
  }

  /** The first byte of a block move, and the rest of it. */
  lemma MoveFirst(mem: seq<byte>, tr: Tr)
    requires tr.Fits(|mem|) && NoOverlap(tr) && tr.len > 0
    ensures BlockMove(mem[tr.dst := mem[tr.src]], tr.From(1)) == BlockMove(mem, tr)
  {
    SlicesAfterFirst(mem, tr.dst, tr.src, tr.len);
  }

  /** A copy between buffers that do not overlap is a plain block move. */
  lemma {:induction false} CopyIsMove(mem: seq<byte>, tr: Tr)
    requires tr.Fits(|mem|) && NoOverlap(tr)
    ensures Copy(mem, tr) == BlockMove(mem, tr)
    decreases tr.len
  {
    if tr.len == 0 {
      MoveNone(mem, tr);
    } else {
      MoveFirst(mem, tr);
      CopyIsMove(mem[tr.dst := mem[tr.src]], tr.From(1));
    }
  }

  /** Byte for byte, by addresses: the source bytes at the destination, all others as before. */
  lemma CopiedByte(mem: seq<byte>, tr: Tr, a: nat)
    requires tr.Fits(|mem|) && NoOverlap(tr) && a < |mem|
    ensures Copy(mem, tr)[a] == if tr.dst <= a < tr.dst + tr.len then mem[tr.src + (a - tr.dst)] else mem[a]
  {
    CopyIsMove(mem, tr);
  }

  /** The requests of the given descriptors. */
  function Requests(descs: seq<Tr>, ids: seq<nat>): seq<Tr>
    requires forall i :: 0 <= i < |ids| ==> ids[i] < |descs|
  {
    seq(|ids|, i requires 0 <= i < |ids| => descs[ids[i]])
  }

  lemma QueuedInRange(s: State)
    requires Valid(s)
    ensures forall i :: 0 <= i < |s.fetched + s.fq| ==> (s.fetched + s.fq)[i] < RING_ENTRIES
  {
    CyclicDistinct(Circle(s));
    forall i | 0 <= i < |s.fetched + s.fq| ensures (s.fetched + s.fq)[i] in Circle(s) {
      assert (s.fetched + s.fq)[i] == Circle(s)[i];
    }
  }

  /** What is still to be copied: the rest of the current request, then everything queued behind it. */
  ghost function Pending(s: State): (p: seq<Tr>)
    requires Valid(s)
    ensures forall i :: 0 <= i < |p| ==> p[i].Fits(|s.mem|)
  {
    QueuedInRange(s);
    var all := Requests(s.descs, s.fetched + s.fq);
    if s.fetched == [] then all else assert all[0] == s.Current(); all[0 := all[0].From(s.done)]
  }

  /** No request of the list touches this byte. */
  predicate Untouched(trs: seq<Tr>, addr: nat) {
    forall i :: 0 <= i < |trs| ==> !trs[i].Touches(addr)
  }

  /** What the CPU has asked for: a copy, or a byte it has written itself. */
  datatype Op = Copied(tr: Tr) | Stored(addr: nat, value: byte) {
    predicate Fits(size: nat) {
      match this
      case Copied(tr) => tr.Fits(size)
      case Stored(addr, _) => addr < size
    }
  }

  predicate AllFit(ops: seq<Op>, size: nat) {
    forall i :: 0 <= i < |ops| ==> ops[i].Fits(size)
  }

  function Perform(mem: seq<byte>, op: Op): (m: seq<byte>)
    requires op.Fits(|mem|)
    ensures |m| == |mem|
  {
    match op
    case Copied(tr) => Copy(mem, tr)
    case Stored(addr, value) => mem[addr := value]
  }

  /** The memory a CPU would see that made every copy itself, at once, in the order it asked for them. */
  function Apply(mem: seq<byte>, ops: seq<Op>): (m: seq<byte>)
    requires AllFit(ops, |mem|)
    ensures |m| == |mem|
  {
    if ops == [] then mem else Perform(Apply(mem, ops[..|ops| - 1]), ops[|ops| - 1])
  }

  /** A run: the state, and what the CPU has asked for so far. */
  datatype World = World(s: State, history: seq<Op>)

  /** One scheduling slot. A step that is not enabled does nothing: a ring was polled in vain, the hardware was idle. */
  ghost function Tick(w: World, step: Step): (next: World)
    requires Valid(w.s)
    ensures Valid(next.s) && |next.s.mem| == |w.s.mem|
  {
    if Enabled(w.s, step) then
      StepKeepsValid(w.s, step);
      World(Next(w.s, step),
            if step.Submit? then HeldNotOwnedByHardware(w.s); w.history + [Copied(w.s.descs[w.s.cpu.d])]
            else if step.Store? then w.history + [Stored(step.addr, step.value)]
            else w.history)
    else w
  }

  ghost function Run(w: World, steps: seq<Step>): (next: World)
    requires Valid(w.s)
    ensures Valid(next.s) && |next.s.mem| == |w.s.mem|
  {
    if steps == [] then w else Tick(Run(w, steps[..|steps| - 1]), steps[|steps| - 1])
  }

  /** Finishing the pending requests would give what the whole history gives, one thing after another. */
  ghost predicate Faithful(w: World, mem0: seq<byte>)
    requires Valid(w.s)
  {
    && |mem0| == |w.s.mem|
    && AllFit(w.history, |mem0|)
    && CopyAll(w.s.mem, Pending(w.s)) == Apply(mem0, w.history)
  }

  lemma PendingUnchanged(s: State, t: State)
    requires Valid(s) && Valid(t) && |s.mem| == |t.mem| && s.done == t.done
    requires s.fetched + s.fq == t.fetched + t.fq
    requires (s.fetched == [] ==> s.done == 0) && (t.fetched == [] ==> t.done == 0)
    requires forall d :: d in s.fetched + s.fq ==> d < RING_ENTRIES && s.descs[d] == t.descs[d]
    ensures Pending(s) == Pending(t)
  {
    QueuedInRange(s);
    QueuedInRange(t);
    assert Requests(s.descs, s.fetched + s.fq) == Requests(t.descs, t.fetched + t.fq);
  }

  lemma SubmitPending(s: State)
    requires Valid(s) && Enabled(s, Submit) && Valid(Next(s, Submit)) && s.cpu.d < RING_ENTRIES
    ensures Pending(Next(s, Submit)) == Pending(s) + [s.descs[s.cpu.d]]
  {
    var t := Next(s, Submit);
    assert t.fetched + t.fq == s.fetched + s.fq + [s.cpu.d];
  }

  lemma MovePending(s: State)
    requires Valid(s) && Enabled(s, Move) && Valid(Next(s, Move))
    ensures |Pending(s)| > 0 && Pending(s)[0] == s.Current().From(s.done)
    ensures Pending(Next(s, Move)) == Pending(s)[0 := Pending(s)[0].From(1)]
  {}

  lemma CompletePending(s: State)
    requires Valid(s) && Enabled(s, Complete) && Valid(Next(s, Complete))
    ensures |Pending(s)| > 0 && Pending(s)[0].len == 0
    ensures Pending(Next(s, Complete)) == Pending(s)[1..]
  {
    var t := Next(s, Complete);
    assert s.fetched + s.fq == [s.fetched[0]] + (t.fetched + t.fq);
  }

  lemma SubmitKeepsFaithful(w: World, mem0: seq<byte>)
    requires Valid(w.s) && Faithful(w, mem0) && Enabled(w.s, Submit)
    ensures Faithful(Tick(w, Submit), mem0)
  {
    StepKeepsValid(w.s, Submit);
    HeldNotOwnedByHardware(w.s);
    SubmitPending(w.s);
    CopyAllAppend(w.s.mem, Pending(w.s), w.s.descs[w.s.cpu.d]);
    ApplyAppend(mem0, w.history, Copied(w.s.descs[w.s.cpu.d]));
  }

  lemma ApplyAppend(mem: seq<byte>, ops: seq<Op>, op: Op)
    requires AllFit(ops, |mem|) && op.Fits(|mem|)
    ensures AllFit(ops + [op], |mem|)
    ensures Apply(mem, ops + [op]) == Perform(Apply(mem, ops), op)
  {
    assert (ops + [op])[..|ops|] == ops;
  }

  /** A byte a copy does not touch can be written before it or after. */
  lemma {:induction false} StoreAcrossCopy(mem: seq<byte>, tr: Tr, addr: nat, value: byte)
    requires tr.Fits(|mem|) && addr < |mem| && !tr.Touches(addr)
    ensures Copy(mem[addr := value], tr) == Copy(mem, tr)[addr := value]
    decreases tr.len
  {
    if tr.len > 0 {
      var m := mem[tr.dst := mem[tr.src]];
      StoreAcrossCopy(m, tr.From(1), addr, value);
      assert mem[addr := value][tr.dst := mem[tr.src]] == m[addr := value];
    }
  }

  lemma {:induction false} StoreAcrossCopies(mem: seq<byte>, trs: seq<Tr>, addr: nat, value: byte)
    requires addr < |mem| && Untouched(trs, addr) && forall i :: 0 <= i < |trs| ==> trs[i].Fits(|mem|)
    ensures CopyAll(mem[addr := value], trs) == CopyAll(mem, trs)[addr := value]
    decreases |trs|
  {
    if trs != [] {
      StoreAcrossCopy(mem, trs[0], addr, value);
      StoreAcrossCopies(Copy(mem, trs[0]), trs[1..], addr, value);
    }
  }

  lemma StoreKeepsFaithful(w: World, mem0: seq<byte>, addr: nat, value: byte)
    requires Valid(w.s) && Faithful(w, mem0) && Enabled(w.s, Store(addr, value))
    ensures Faithful(Tick(w, Store(addr, value)), mem0)
  {
    StepKeepsValid(w.s, Store(addr, value));
    var t := Next(w.s, Store(addr, value));
    QueuedInRange(w.s);
    PendingUnchanged(w.s, t);
    StoreAcrossCopies(w.s.mem, Pending(w.s), addr, value);
    ApplyAppend(mem0, w.history, Stored(addr, value));
  }

  /** Whatever happens next, CPU or hardware, the promise of the history is kept. */
  lemma TickKeepsFaithful(w: World, step: Step, mem0: seq<byte>)
    requires Valid(w.s) && Faithful(w, mem0)
    ensures Faithful(Tick(w, step), mem0)
  {
    if Enabled(w.s, step) {
      StepKeepsValid(w.s, step);
      var t := Next(w.s, step);
      match step
      case Dequeue =>
        QueuedInRange(w.s);
        PendingUnchanged(w.s, t);
      case Fill(_) =>
        QueuedInRange(w.s);
        HeldNotOwnedByHardware(w.s);
        PendingUnchanged(w.s, t);
      case Fetch =>
        QueuedInRange(w.s);
        assert t.fetched + t.fq == w.s.fetched + w.s.fq;
        PendingUnchanged(w.s, t);
      case Submit =>
        SubmitKeepsFaithful(w, mem0);
      case Store(addr, value) =>
        StoreKeepsFaithful(w, mem0, addr, value);
      case Move =>
        MovePending(w.s);
        CopyFirstByte(w.s.mem, Pending(w.s));
      case Complete =>
        CompletePending(w.s);
        CopyFirstDone(w.s.mem, Pending(w.s));
    }
  }

  /** The channel after start-up: every descriptor free, nothing submitted. */
  ghost predicate Initial(s: State) {
    && s.cq == seq(RING_ENTRIES, i => i) && s.fq == [] && s.fetched == [] && s.done == 0 && s.cpu.Idle?
    && |s.descs| == RING_ENTRIES
    && forall i :: 0 <= i < RING_ENTRIES ==> s.descs[i].len == 0 && s.descs[i].Fits(|s.mem|)
  }

  lemma InitialValid(s: State)
    requires Initial(s)
    ensures Valid(s) && Faithful(World(s, []), s.mem)
  {
    assert Circle(s) == s.cq;
    assert Pending(s) == [];
  }

  lemma {:induction false} RunKeepsFaithful(s: State, steps: seq<Step>)
    requires Initial(s)
    ensures Valid(s) && Faithful(Run(World(s, []), steps), s.mem)
  {
    InitialValid(s);
    if steps != [] {
      RunKeepsFaithful(s, steps[..|steps| - 1]);
      TickKeepsFaithful(Run(World(s, []), steps[..|steps| - 1]), steps[|steps| - 1], s.mem);
    }
  }

  /**
   Under any interleaving of the CPU and the hardware: once the completion ring is full again, memory
   is what the CPU's own writes and the copies it submitted give when done one after another, in order.
   */
  lemma QuiescentMemory(s: State, steps: seq<Step>)
    requires Initial(s)
    requires Valid(s) && |Run(World(s, []), steps).s.cq| == RING_ENTRIES
    ensures var w := Run(World(s, []), steps);
      && w.s.fetched == [] && w.s.fq == [] && w.s.cpu.Idle?
      && AllFit(w.history, |s.mem|) && w.s.mem == Apply(s.mem, w.history)
  {
    RunKeepsFaithful(s, steps);
    var w := Run(World(s, []), steps);
    assert |Circle(w.s)| == RING_ENTRIES;
    assert Pending(w.s) == [];
  }

  /**
   Under any interleaving: each descriptor is in exactly one place, and the submit ring always has room
   for the one the CPU holds.
   */
  lemma DescriptorsConserved(s: State, steps: seq<Step>)
    requires Initial(s) && Valid(s)
    ensures var t := Run(World(s, []), steps).s;
      && |t.fetched| + |t.fq| + |t.cpu.Held()| + |t.cq| == RING_ENTRIES
      && (forall i, j :: 0 <= i < j < RING_ENTRIES ==> Circle(t)[i] != Circle(t)[j])
      && (forall d: nat :: d < RING_ENTRIES ==> d in Circle(t))
      && (t.cpu.Filled? ==> |t.fq| < RING_ENTRIES)
  {
    CyclicDistinct(Circle(Run(World(s, []), steps).s));
  }

  /** A descriptor the hardware owns is never rewritten under it, by any step. */
  lemma HardwareOwnedUntouched(s: State, step: Step, d: nat)
    requires Valid(s) && Enabled(s, step) && d in s.fetched + s.fq
    ensures d < RING_ENTRIES && |Next(s, step).descs| == RING_ENTRIES && Next(s, step).descs[d] == s.descs[d]
  {
    QueuedInRange(s);
    if step.Fill? {
      HeldNotOwnedByHardware(s);
    }
  }

  // ---------------------------------------------------------------- the hardware never gets stuck

  function TotalLen(trs: seq<Tr>): nat {
    if trs == [] then 0 else trs[0].len + TotalLen(trs[1..])
  }

  /** Hardware steps left before every submitted request is done and returned. */
  ghost function Work(s: State): nat
    requires Valid(s)
  {
    TotalLen(Pending(s)) + 2 * |s.fq| + |s.fetched|
  }

  predicate IsHardware(step: Step) { step.Fetch? || step.Move? || step.Complete? }

  /**
   Every hardware step does one unit of work, a step is possible as long as any work is left, and no
   work left means that the completion ring is full.
   */
  lemma HardwareProgress(s: State)
    requires Valid(s)
    ensures forall step :: IsHardware(step) && Enabled(s, step) ==>
      Valid(Next(s, step)) && Work(Next(s, step)) == Work(s) - 1
    ensures Work(s) > 0 ==> exists step :: IsHardware(step) && Enabled(s, step)
    ensures Work(s) == 0 && s.cpu.Idle? ==> |s.cq| == RING_ENTRIES
  {
    forall step | IsHardware(step) && Enabled(s, step)
      ensures Valid(Next(s, step)) && Work(Next(s, step)) == Work(s) - 1
    {
      HardwareStepWorks(s, step);
    }
    if s.fq != [] {
      assert Enabled(s, Fetch);
    } else if s.fetched != [] {
      assert Enabled(s, Move) || Enabled(s, Complete);
    } else {
      assert Pending(s) == [];
      assert |Circle(s)| == RING_ENTRIES;
    }
  }

  lemma HardwareStepWorks(s: State, step: Step)
    requires Valid(s) && IsHardware(step) && Enabled(s, step)
    ensures Valid(Next(s, step)) && Work(Next(s, step)) == Work(s) - 1
  {
    StepKeepsValid(s, step);
    match step
    case Fetch =>
      QueuedInRange(s);
      assert Next(s, step).fetched + Next(s, step).fq == s.fetched + s.fq;
      PendingUnchanged(s, Next(s, step));
    case Move =>
      MovePending(s);
      assert Pending(Next(s, step))[1..] == Pending(s)[1..];
    case Complete =>
      CompletePending(s);
  }

  // ---------------------------------------------------------------- the driver

  datatype Status = Sok | Efail

  class DmaChannel {
    var cqRing: seq<nat>
    var fqRing: seq<nat>
    var descs: seq<Tr>
    var mem: seq<byte>
    var failCount: word
    var fetched: seq<nat>
    var done: nat
    ghost var cpu: Cpu
    ghost const start: State
    ghost var trace: seq<Step>

    ghost function Now(): State
      reads this
    {
      State(cqRing, fqRing, fetched, done, cpu, descs, mem)
    }

    ghost predicate Ok()
      reads this
    {
      Initial(start) && Valid(start) && Run(World(start, []), trace).s == Now()
    }

    /** The copies submitted and the bytes written by the CPU since start-up. */
    ghost function History(): seq<Op>
      requires Ok()
      reads this
    {
      Run(World(start, []), trace).history
    }

    /** Start-up: all twenty descriptors are made up and handed to the completion ring. */
    constructor (mem: seq<byte>)
      ensures Ok() && cpu == Idle && History() == [] && start.mem == mem && failCount == 0
      ensures cqRing == seq(20, i => i) && fqRing == [] && fetched == [] && this.mem == mem
    {
      this.mem, failCount := mem, 0;
      cqRing, fqRing := [], [];
      descs := seq(RING_ENTRIES, _ => Tr(0, 0, 0));
      cpu, fetched, done, trace := Idle, [], 0, [];
      start := State(seq(RING_ENTRIES, i => i), [], [], 0, Idle, seq(RING_ENTRIES, _ => Tr(0, 0, 0)), mem);
      new;
      var i := 0;
      while i < RING_ENTRIES
        invariant 0 <= i <= RING_ENTRIES
        invariant cqRing == seq(i, j => j) && fqRing == [] && fetched == [] && done == 0 && cpu == Idle && trace == []
        invariant descs == start.descs && this.mem == mem && failCount == 0
      {
        cqRing := cqRing + [i];
        i := i + 1;
      }
      InitialValid(start);
    }

    /** Records a step that has just been taken. */
    ghost method Record(step: Step)
      requires Initial(start) && Valid(start)
      requires var w := Run(World(start, []), trace); Enabled(w.s, step) && Next(w.s, step) == Now()
      modifies this`trace
      ensures trace == old(trace) + [step] && Ok()
      ensures History() == Tick(Run(World(start, []), old(trace)), step).history
    {
      assert (trace + [step])[..|trace|] == trace;
      trace := trace + [step];
    }

    method MoveByte(tr: Tr)
      requires Ok() && fetched != [] && fetched[0] < |descs| && tr == descs[fetched[0]] && done < tr.len
      modifies this`mem, this`done, this`trace
      ensures Ok() && History() == old(History()) && |mem| == old(|mem|) && trace == old(trace) + [Move]
    {
      ghost var s := Now();
      assert Enabled(s, Move) && s.Current() == tr && tr.Fits(|mem|);
      mem, done := mem[tr.dst + done := mem[tr.src + done]], done + 1;
      assert Next(s, Move) == Now();
      Record(Move);
    }

    /** One step of the hardware, if that step is possible now. */
    method HardwareStep(step: Step)
      requires Ok() && IsHardware(step)
      modifies this`cqRing, this`fqRing, this`mem, this`fetched, this`done, this`trace
      ensures Ok() && History() == old(History()) && |mem| == old(|mem|)
      ensures trace == if Enabled(old(Now()), step) then old(trace) + [step] else old(trace)
    {
      ghost var s := Now();
      QueuedInRange(s);
      if fetched != [] {
        assert (s.fetched + s.fq)[0] == fetched[0];
      }
      if step.Fetch? && fqRing != [] {
        fetched, fqRing := fetched + [fqRing[0]], fqRing[1..];
        Record(Fetch);
      } else if step.Move? && fetched != [] && done < descs[fetched[0]].len {
        MoveByte(descs[fetched[0]]);
      } else if step.Complete? && fetched != [] && done == descs[fetched[0]].len {
        cqRing, fetched, done := cqRing + [fetched[0]], fetched[1..], 0;
        Record(Complete);
      }
    }

    /** A byte written by the CPU between two calls, outside everything still to be copied. */
    method Store(addr: nat, value: byte)
      requires Ok() && cpu == Idle && addr < |mem| && Untouched(Pending(Now()), addr)
      modifies this`mem, this`trace
      ensures Ok() && cpu == Idle && mem == old(mem)[addr := value]
      ensures History() == old(History()) + [Stored(addr, value)]
    {
      ghost var s := Now();
      assert Enabled(s, Step.Store(addr, value));
      mem := mem[addr := value];
      assert Next(s, Step.Store(addr, value)) == Now();
      Record(Step.Store(addr, value));
    }

    /** The hardware runs for a while, doing nobody knows which steps. */
    method HardwareRuns()
      requires Ok()
      modifies this`cqRing, this`fqRing, this`mem, this`fetched, this`done, this`trace
      ensures Ok() && History() == old(History()) && |mem| == old(|mem|)
    {
      var n: nat := *;
      while n > 0
        invariant Ok() && History() == old(History()) && |mem| == old(|mem|)
      {
        var step: Step := *;
        if IsHardware(step) {
          HardwareStep(step);
        }
        n := n - 1;
      }
    }

    /** Rewrites the request of the descriptor the CPU holds. */
    method TrpdInit(d: nat, dst: nat, src: nat, len: nat)
      requires Ok() && cpu == Holding(d) && Tr(dst, src, len).Fits(|mem|)
      modifies this`descs, this`cpu, this`trace
      ensures Ok() && cpu == Filled(d) && History() == old(History())
      ensures d < |descs| && descs[d] == Tr(dst, src, len)
    {
      HeldNotOwnedByHardware(Now());
      descs := descs[d := Tr(dst, src, len)];
      cpu := Filled(d);
      Record(Fill(Tr(dst, src, len)));
    }

    method SubmitTrpd(d: nat)
      requires Ok() && cpu == Filled(d) && d < |descs|
      modifies this`fqRing, this`cpu, this`trace
      ensures Ok() && cpu == Idle && History() == old(History()) + [Copied(descs[d])]
    {
      ghost var w := Run(World(start, []), trace);
      fqRing := fqRing + [d];
      cpu := Idle;
      Record(Submit);
      assert Tick(w, Submit).history == w.history + [Copied(w.s.descs[d])];
    }

    /** Polls the completion ring for a free descriptor; gives up after finding it empty 0x1000001 times. */
    method TakeDescriptor() returns (r: Status, d: nat, ghost emptyPolls: nat)
      requires Ok() && cpu == Idle
      modifies this`cqRing, this`fqRing, this`mem, this`fetched, this`done, this`trace, this`cpu, this`failCount
      ensures Ok() && |mem| == old(|mem|) && History() == old(History())
      ensures r == Sok ==> cpu == Holding(d) && failCount == old(failCount)
      ensures r == Efail ==> cpu == Idle && cqRing == [] && emptyPolls == 0x100_0001
      ensures r == Efail ==> failCount == Inc(old(failCount))
    {
      emptyPolls, d := 0, 0;
      var timeOutCount := MEMCPY_POLLS;
      while true
        invariant Ok() && cpu == Idle && |mem| == old(|mem|) && History() == old(History())
        invariant 0 <= timeOutCount && emptyPolls + timeOutCount == MEMCPY_POLLS && failCount == old(failCount)
        decreases timeOutCount
      {
        HardwareRuns();
        if |cqRing| != 0 {
          d, cqRing := cqRing[0], cqRing[1..];
          cpu := Holding(d);
          Record(Dequeue);
          return Sok, d, emptyPolls;
        }
        emptyPolls := emptyPolls + 1;
        if timeOutCount == 0 {
          failCount := Inc(failCount);
          return Efail, d, emptyPolls;
        }
        timeOutCount := timeOutCount - 1;
      }
    }

    method FillAndSubmit(d: nat, dst: nat, src: nat, len: nat)
      requires Ok() && cpu == Holding(d) && Tr(dst, src, len).Fits(|mem|)
      modifies this`cqRing, this`fqRing, this`mem, this`fetched, this`done, this`trace, this`cpu, this`descs
      ensures Ok() && cpu == Idle && |mem| == old(|mem|)
      ensures History() == old(History()) + [Copied(Tr(dst, src, len))]
    {
      HardwareRuns();
      TrpdInit(d, dst, src, len);
      HardwareRuns();
      SubmitTrpd(d);
    }

    /** Queue one copy, once a descriptor is free; on time-out nothing is queued. */
    method Memcpy(dst: nat, src: nat, len: nat) returns (r: Status, ghost emptyPolls: nat)
      requires Ok() && cpu == Idle && Tr(dst, src, len).Fits(|mem|)
      modifies this
      ensures Ok() && cpu == Idle && |mem| == old(|mem|)
      ensures r == Sok ==> History() == old(History()) + [Copied(Tr(dst, src, len))] && failCount == old(failCount)
      ensures r == Efail ==> History() == old(History()) && cqRing == [] && emptyPolls == 0x100_0001
      ensures r == Efail ==> failCount == Inc(old(failCount))
    {
      var d: nat;
      r, d, emptyPolls := TakeDescriptor();
      if r == Efail {
        return;
      }
      ghost var failures, requested := failCount, History();
      FillAndSubmit(d, dst, src, len);
      assert failCount == failures && History() == requested + [Copied(Tr(dst, src, len))];
    }

    /**
     Waits until all twenty descriptors are back, or has found some missing `timeOut` + 1 times. When they are
     back, memory holds what the CPU wrote and every copy queued since start-up, in order.
     */
    method WaitComplete(timeOut: word) returns (r: Status, ghost polls: nat)
      requires Ok() && cpu == Idle
      modifies this
      ensures Ok() && cpu == Idle && History() == old(History()) && |mem| == old(|mem|)
      ensures r == Sok ==>
        && |cqRing| == 20 && fqRing == [] && fetched == [] && failCount == old(failCount)
        && AllFit(History(), |start.mem|) && mem == Apply(start.mem, History())
      ensures r == Efail ==>
        |cqRing| < 20 && polls == timeOut + 1 && failCount == Inc(old(failCount))
    {
      var timeOutCount := timeOut as int;
      polls := 0;
      while true
        invariant Ok() && cpu == Idle && History() == old(History()) && |mem| == old(|mem|)
        invariant 0 <= timeOutCount && polls + timeOutCount == timeOut && failCount == old(failCount)
        decreases timeOutCount
      {
        HardwareRuns();
        if |cqRing| == RING_ENTRIES {
          break;
        }
        polls := polls + 1;
        if timeOutCount == 0 {
          assert |Circle(Now())| == RING_ENTRIES;
          failCount := Inc(failCount);
          return Efail, polls;
        }
        timeOutCount := timeOutCount - 1;
      }
      QuiescentMemory(start, trace);
      r := Sok;
    }
  }
}
