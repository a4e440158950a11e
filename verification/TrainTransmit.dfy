/**
 The ping-pong transmitter of a CPU-to-FPGA train: the application takes car buffers from one
 bank while the FPGA reads the bank named by the last published header.
 */
module TrainTransmit {
  import opened Words
  import opened TrainLayout

  const CPU_TO_FPGA: half := 0x1234

  datatype Kind = Small | Big

  /** The 128-byte header the FPGA reads; the reserved and command bytes are kept as whole words. */
  datatype TxHeader = TxHeader(
    frameHead: half, heartBeat: half,
    carId: byte, carNumS: byte, carNumB: byte, resv1: byte,
    resv2: seq<word>,
    carLenS: seq<half>, carLenB: seq<half>,
    tail: seq<word>,
    checkSum: word)
  {
    predicate WellFormed() {
      |resv2| == 2 && |carLenS| == |carLenB| == CAR_NUM && |tail| == 11
    }

    function CarNum(k: Kind): byte { if k.Small? then carNumS else carNumB }

    function CarLen(k: Kind): seq<half> { if k.Small? then carLenS else carLenB }

    /** The bank handed out while this header is the published one. */
    function FillBank(): nat { if carId == 1 then 1 else 0 }

    /** The bank the FPGA reads: car id 1 is bank 0, car id 2 is bank 1. */
    function NamedBank(): int { carId - 1 }

    predicate IdInRange() { carId == 0 || carId == 1 || carId == 2 }

    /** The 31 words before the checksum, little-endian. */
    function Body(): (w: seq<word>)
      requires WellFormed()
      ensures |w| == 31
    {
      [frameHead + heartBeat * TWO_16,
       carId + carNumS * TWO_8 + carNumB * TWO_16 + resv1 * (TWO_8 * TWO_16)]
      + resv2 + Pairs(carLenS) + Pairs(carLenB) + tail
    }

    function Frame(): (w: seq<word>)
      requires WellFormed()
      ensures |w| == 32
    {
      Body() + [checkSum]
    }
  }

  function Pairs(s: seq<half>): (w: seq<word>)
    requires |s| == CAR_NUM
    ensures |w| == 8
  {
    seq(8, i requires 0 <= i < 8 => s[2 * i] + s[2 * i + 1] * TWO_16)
  }

  /** One kind of car: how many there are, how many are taken, and the lengths the application has set. */
  datatype Side = Side(num: byte, index: byte, lens: seq<half>) {
    predicate Valid() { index <= num <= CAR_NUM && |lens| == CAR_NUM }
  }

  datatype TxState = TxState(small: Side, big: Side, header: TxHeader) {
    predicate Valid() { small.Valid() && big.Valid() && header.WellFormed() }

    function Side(k: Kind): Side { if k.Small? then small else big }

    function WithSide(k: Kind, s: Side): TxState { if k.Small? then this.(small := s) else this.(big := s) }
  }

  /** Take the next car, if one is left. */
  function GetStep(s: TxState, k: Kind): TxState
    requires s.Valid()
  {
    var d := s.Side(k);
    if d.index == d.num then s else s.WithSide(k, d.(index := d.index + 1))
  }

  /** The lengths a header announces: those of the `n` taken cars, zero for the rest. */
  function Announced(lens: seq<half>, n: nat): seq<half> {
    seq(|lens|, i requires 0 <= i < |lens| => if i < n then lens[i] else 0)
  }

  function NoLens(): seq<half> { seq(CAR_NUM, _ => 0) }

  function PublishedHeader(s: TxState): (h: TxHeader)
    requires s.Valid()
    ensures h.WellFormed()
  {
    var h := s.header.(
      frameHead := CPU_TO_FPGA,
      heartBeat := (s.header.heartBeat + 1) % TWO_16,
      carNumS := s.small.index, carNumB := s.big.index,
      carId := if s.header.carId == 0 || s.header.carId == 2 then 1 else 2,
      carLenS := Announced(s.small.lens, s.small.index),
      carLenB := Announced(s.big.lens, s.big.index));
    h.(checkSum := Sum(h.Body()) % TWO_32)
  }

  function PublishStep(s: TxState): (t: TxState)
    requires s.Valid()
    ensures t.Valid()
  {
    TxState(s.small.(index := 0, lens := NoLens()), s.big.(index := 0, lens := NoLens()), PublishedHeader(s))
  }

  // ---------------------------------------------------------------- the driver

  class TrainTx {
    const slot: TxTrain
    var writeIndexS: byte
    var writeIndexB: byte
    const carLenS: array<half>
    const carLenB: array<half>
    var header: TxHeader
    /** Where the train started, and what has been done with it since. */
    ghost const start: TxState
    ghost var acts: seq<Action>

    /** The fields are those the recorded run leads to. */
    ghost predicate Valid()
      reads this, carLenS, carLenB
    {
      && slot.WellFormed() && carLenS != carLenB
      && carLenS.Length == carLenB.Length == CAR_NUM
      && State().Valid() && start.Valid() && Legal(acts)
      && start.small == Side(slot.numS, 0, NoLens()) && start.big == Side(slot.numB, 0, NoLens())
      && Exec(start, acts).state == State()
    }

    /** The run so far: what was handed out, and in which cycle. */
    ghost function Trace(): Run
      requires Valid()
      reads this, carLenS, carLenB
    {
      Exec(start, acts)
    }

    ghost function State(): TxState
      reads this, carLenS, carLenB
    {
      TxState(Side(slot.numS, writeIndexS, carLenS[..]), Side(slot.numB, writeIndexB, carLenB[..]), header)
    }

    constructor (slot: TxTrain, header: TxHeader)
      requires slot.WellFormed() && header.WellFormed()
      ensures Valid() && fresh(carLenS) && fresh(carLenB) && this.slot == slot
      ensures State() == start == TxState(Side(slot.numS, 0, NoLens()), Side(slot.numB, 0, NoLens()), header)
      ensures acts == []
    {
      this.slot, this.header := slot, header;
      writeIndexS, writeIndexB := 0, 0;
      carLenS := new half[CAR_NUM](_ => 0);
      carLenB := new half[CAR_NUM](_ => 0);
      start := TxState(Side(slot.numS, 0, NoLens()), Side(slot.numB, 0, NoLens()), header);
      acts := [];
      new;
      assert carLenS[..] == NoLens() && carLenB[..] == NoLens();
    }

    /** Records an action that has just been done. */
    ghost method Record(a: Action)
      requires slot.WellFormed() && carLenS != carLenB && carLenS.Length == carLenB.Length == CAR_NUM
      requires start.Valid() && Legal(acts) && (a.SetLen? ==> a.car < CAR_NUM)
      requires start.small == Side(slot.numS, 0, NoLens()) && start.big == Side(slot.numB, 0, NoLens())
      requires Step(Exec(start, acts), a).state == State()
      modifies this`acts
      ensures Valid() && acts == old(acts) + [a] && Trace() == Step(Exec(start, old(acts)), a)
    {
      assert (acts + [a])[..|acts|] == acts;
      acts := acts + [a];
    }

    /** The application sets the length of a car it has filled. */
    method SetLen(k: Kind, car: nat, len: half)
      requires Valid() && car < CAR_NUM
      modifies this`acts, carLenS, carLenB
      ensures Valid() && acts == old(acts) + [Action.SetLen(k, car, len)]
      ensures Trace() == Step(old(Trace()), Action.SetLen(k, car, len))
    {
      if k == Small {
        carLenS[car] := len;
      } else {
        carLenB[car] := len;
      }
      Record(Action.SetLen(k, car, len));
    }

    /**
     A car buffer from the bank the FPGA is not reading, and its number; -1 and no buffer when all are taken.
     The header is looked at only when a car is left.
     */
    method GetBuff(carType: byte) returns (number: int, buff: nat)
      requires Valid()
      requires slot.header != 0 || (if carType == 0 then writeIndexS == slot.numS else writeIndexB == slot.numB)
      modifies this
      ensures Valid()
      ensures var k := if carType == 0 then Small else Big;
        && State() == GetStep(old(State()), k)
        && (if old(State()).Side(k).index == old(State()).Side(k).num then number == -1 && buff == 0
            else number == old(State()).Side(k).index && buff == CarPointer(slot, k, old(header).FillBank(), number))
      ensures var k := if carType == 0 then Small else Big;
        && acts == old(acts) + [Get(k)] && Trace().cycle == old(Trace()).cycle
        && Trace().handouts == old(Trace()).handouts +
             if number == -1 then [] else [Handout(k, old(header).FillBank(), number, Trace().cycle)]
    {
      buff := 0;
      if carType == 0 {
        if writeIndexS == slot.numS {
          Record(Get(Small));
          return -1, buff;
        }
        buff := if header.carId == 1 then slot.s1[writeIndexS] else slot.s0[writeIndexS];
        number := writeIndexS;
        writeIndexS := writeIndexS + 1;
        Record(Get(Small));
      } else {
        if writeIndexB == slot.numB {
          Record(Get(Big));
          return -1, buff;
        }
        buff := if header.carId == 1 then slot.b1[writeIndexB] else slot.b0[writeIndexB];
        number := writeIndexB;
        writeIndexB := writeIndexB + 1;
        Record(Get(Big));
      }
    }

    /** Publish the cars taken so far: counts, lengths, the bank they are in, and the checksum. */
    method UpdateHeader() returns (r: int)
      requires Valid()
      modifies this, carLenS, carLenB
      ensures Valid()
      ensures if slot.header == 0 then r == -1 && State() == old(State())
              else r == 0 && State() == PublishStep(old(State()))
      ensures acts == old(acts) + if r == 0 then [Publish] else []
      ensures Trace() == if r == 0 then Step(old(Trace()), Publish) else old(Trace())
    {
      if slot.header == 0 {
        return -1;
      }
      ghost var was := State();
      header := header.(frameHead := CPU_TO_FPGA, heartBeat := (header.heartBeat + 1) % TWO_16);
      header := header.(carNumS := writeIndexS, carNumB := writeIndexB);
      writeIndexB := 0;
      writeIndexS := 0;
      if header.carId == 0 || header.carId == 2 {
        header := header.(carId := 1);
      } else {
        header := header.(carId := 2);
      }
      var lens := AnnounceLens(carLenS, header.carNumS);
      header := header.(carLenS := lens);
      lens := AnnounceLens(carLenB, header.carNumB);
      header := header.(carLenB := lens);
      var sum := Checksum(header.Body());
      header := header.(checkSum := sum);
      assert header == PublishedHeader(was);
      assert State() == PublishStep(was);
      Record(Publish);
      r := 0;
    }
  }

  /** Copies the first `n` pending lengths and clears the pending table. */
  method AnnounceLens(pending: array<half>, n: nat) returns (lens: seq<half>)
    requires pending.Length == CAR_NUM && n <= CAR_NUM
    modifies pending
    ensures lens == Announced(old(pending[..]), n) && pending[..] == NoLens()
  {
    lens := NoLens();
    var i := 0;
    while i < n
      invariant 0 <= i <= n
      invariant pending[..] == old(pending[..])
      invariant lens == Announced(old(pending[..]), i)
    {
      lens := lens[i := pending[i]];
      i := i + 1;
    }
    forall i | 0 <= i < CAR_NUM {
      pending[i] := 0;
    }
  }

  function CarPointer(slot: TxTrain, k: Kind, bank: nat, j: nat): nat
    requires slot.WellFormed() && bank < 2 && j < CAR_NUM
  {
    match k
    case Small => if bank == 1 then slot.s1[j] else slot.s0[j]
    case Big => if bank == 1 then slot.b1[j] else slot.b0[j]
  }

  // ---------------------------------------------------------------- whole runs

  datatype Action = Get(kind: Kind) | SetLen(kind: Kind, car: nat, len: half) | Publish

  /** A car handed out, and the number of publishes before it. */
  datatype Handout = Handout(kind: Kind, bank: nat, index: nat, cycle: nat)

  datatype Run = Run(state: TxState, cycle: nat, handouts: seq<Handout>)

  predicate Legal(acts: seq<Action>) {
    forall i :: 0 <= i < |acts| && acts[i].SetLen? ==> acts[i].car < CAR_NUM
  }

  function Step(r: Run, a: Action): (next: Run)
    requires r.state.Valid() && (a.SetLen? ==> a.car < CAR_NUM)
    ensures next.state.Valid()
  {
    match a
    case Get(k) =>
      var d := r.state.Side(k);
      if d.index == d.num then r
      else Run(GetStep(r.state, k), r.cycle, r.handouts + [Handout(k, r.state.header.FillBank(), d.index, r.cycle)])
    case SetLen(k, car, len) =>
      var d := r.state.Side(k);
      r.(state := r.state.WithSide(k, d.(lens := d.lens[car := len])))
    case Publish =>
      Run(PublishStep(r.state), r.cycle + 1, r.handouts)
  }

  function Exec(s: TxState, acts: seq<Action>): (r: Run)
    requires s.Valid() && Legal(acts)
    ensures r.state.Valid()
  {
    if acts == [] then Run(s, 0, [])
    else Step(Exec(s, acts[..|acts| - 1]), acts[|acts| - 1])
  }

  /** A later handout is in a later cycle, or in the same one with a higher number if of the same kind. */
  predicate InOrder(a: Handout, b: Handout) {
    a.cycle < b.cycle || (a.cycle == b.cycle && (a.kind == b.kind ==> a.index < b.index))
  }

  /** Banks alternate with the cycles, starting from bank `first`. */
  ghost predicate PingPong(r: Run, first: nat) {
    && r.state.Valid() && r.state.header.IdInRange()
    && r.state.header.FillBank() == (first + r.cycle) % 2
    && (forall i :: 0 <= i < |r.handouts| ==> var h := r.handouts[i];
         && h.bank == (first + h.cycle) % 2 && h.cycle <= r.cycle
         && (h.cycle == r.cycle ==> h.index < r.state.Side(h.kind).index)
         && h.index < r.state.Side(h.kind).num)
    && (forall i, j :: 0 <= i < j < |r.handouts| ==> InOrder(r.handouts[i], r.handouts[j]))
  }

  lemma PingPongPublish(r: Run, first: nat)
    requires PingPong(r, first)
    ensures PingPong(Step(r, Publish), first)
  {
    var next := PublishStep(r.state);
    assert next.header.FillBank() == 1 - r.state.header.FillBank();
    assert next.small.num == r.state.small.num && next.big.num == r.state.big.num;
  }

  lemma PingPongGet(r: Run, k: Kind, first: nat)
    requires PingPong(r, first)
    ensures PingPong(Step(r, Get(k)), first)
  {
    assert GetStep(r.state, k).header == r.state.header;
  }

  lemma PingPongStep(r: Run, a: Action, first: nat)
    requires PingPong(r, first) && (a.SetLen? ==> a.car < CAR_NUM)
    ensures PingPong(Step(r, a), first)
  {
    match a
    case Publish => PingPongPublish(r, first);
    case Get(k) => PingPongGet(r, k, first);
    case SetLen(_, _, _) =>
  }

  lemma {:induction false} PingPongExec(s: TxState, acts: seq<Action>)
    requires s.Valid() && s.header.IdInRange() && Legal(acts)
    ensures PingPong(Exec(s, acts), s.header.FillBank())
  {
    if acts != [] {
      PingPongExec(s, acts[..|acts| - 1]);
      PingPongStep(Exec(s, acts[..|acts| - 1]), acts[|acts| - 1], s.header.FillBank());
    }
  }

  lemma SameBankTwoApart(r: Run, first: nat, i: nat, j: nat)
    requires PingPong(r, first) && i < j < |r.handouts|
    requires r.handouts[i].(cycle := 0) == r.handouts[j].(cycle := 0)
    ensures r.handouts[j].cycle >= r.handouts[i].cycle + 2
  {
    var a, b := r.handouts[i], r.handouts[j];
    assert InOrder(a, b);
    assert (first + a.cycle) % 2 == (first + b.cycle) % 2;
  }

  /**
   Over every run: two handouts of the same buffer are at least two publishes apart, so what the
   FPGA was told about one cycle is not overwritten while it may still be reading it.
   */
  lemma NoReuseForTwoCycles(s: TxState, acts: seq<Action>, i: nat, j: nat)
    requires s.Valid() && s.header.IdInRange() && Legal(acts)
    requires i < j < |Exec(s, acts).handouts|
    requires var a, b := Exec(s, acts).handouts[i], Exec(s, acts).handouts[j];
      a.kind == b.kind && a.bank == b.bank && a.index == b.index
    ensures Exec(s, acts).handouts[j].cycle >= Exec(s, acts).handouts[i].cycle + 2
  {
    PingPongExec(s, acts);
    SameBankTwoApart(Exec(s, acts), s.header.FillBank(), i, j);
  }

  /** Over every run: nothing handed out since the last publish is in the bank the FPGA was told to read. */
  lemma FillBankIsNotReadBank(s: TxState, acts: seq<Action>, i: nat)
    requires s.Valid() && s.header.IdInRange() && Legal(acts)
    requires i < |Exec(s, acts).handouts| && Exec(s, acts).handouts[i].cycle == Exec(s, acts).cycle
    ensures Exec(s, acts).handouts[i].bank != Exec(s, acts).state.header.NamedBank()
  {
    PingPongExec(s, acts);
  }

  /** A publish names the bank that was being filled exactly when the old car id is 0, 1 or 2. */
  lemma PublishNamesFilledBankIff(s: TxState)
    requires s.Valid()
    ensures PublishedHeader(s).NamedBank() == s.header.FillBank() <==> s.header.IdInRange()
  {}

  function Count(hs: seq<Handout>, k: Kind, cycle: nat): nat {
    if hs == [] then 0
    else Count(hs[..|hs| - 1], k, cycle) + if hs[|hs| - 1].kind == k && hs[|hs| - 1].cycle == cycle then 1 else 0
  }

  lemma {:induction false} CountNone(hs: seq<Handout>, k: Kind, cycle: nat)
    requires forall i :: 0 <= i < |hs| ==> hs[i].cycle < cycle
    ensures Count(hs, k, cycle) == 0
  {
    if hs != [] {
      CountNone(hs[..|hs| - 1], k, cycle);
    }
  }

  lemma CountAppend(hs: seq<Handout>, h: Handout, k: Kind, cycle: nat)
    ensures Count(hs + [h], k, cycle) == Count(hs, k, cycle) + if h.kind == k && h.cycle == cycle then 1 else 0
  {
    assert (hs + [h])[..|hs|] == hs;
  }

  lemma CountPublish(r: Run, k: Kind, first: nat)
    requires PingPong(r, first)
    ensures Count(r.handouts, k, r.cycle + 1) == 0 == PublishStep(r.state).Side(k).index
  {
    CountNone(r.handouts, k, r.cycle + 1);
  }

  lemma CountGet(r: Run, j: Kind, k: Kind)
    requires r.state.Valid() && Count(r.handouts, k, r.cycle) == r.state.Side(k).index
    ensures var next := Step(r, Get(j)); Count(next.handouts, k, next.cycle) == next.state.Side(k).index
  {
    CountAppend(r.handouts, Handout(j, r.state.header.FillBank(), r.state.Side(j).index, r.cycle), k, r.cycle);
  }

  lemma CountStep(r: Run, a: Action, k: Kind, first: nat)
    requires PingPong(r, first) && (a.SetLen? ==> a.car < CAR_NUM)
    requires Count(r.handouts, k, r.cycle) == r.state.Side(k).index
    ensures var next := Step(r, a); Count(next.handouts, k, next.cycle) == next.state.Side(k).index
  {
    match a
    case Publish => CountPublish(r, k, first);
    case Get(j) => CountGet(r, j, k);
    case SetLen(_, _, _) =>
  }

  /** The write index is the number of cars handed out since the last publish. */
  lemma {:induction false} CountIsIndex(s: TxState, acts: seq<Action>, k: Kind)
    requires s.Valid() && s.header.IdInRange() && s.Side(k).index == 0 && Legal(acts)
    ensures var r := Exec(s, acts); Count(r.handouts, k, r.cycle) == r.state.Side(k).index
  {
    if acts != [] {
      var before := acts[..|acts| - 1];
      CountIsIndex(s, before, k);
      PingPongExec(s, before);
      CountStep(Exec(s, before), acts[|acts| - 1], k, s.header.FillBank());
    }
  }

  /** The length the application last set for a car since the last publish; none means zero. */
  function LastSet(acts: seq<Action>, k: Kind, car: nat, initial: half): half {
    if acts == [] then initial
    else
      match acts[|acts| - 1]
      case Publish => 0
      case SetLen(j, c, len) => if j == k && c == car then len else LastSet(acts[..|acts| - 1], k, car, initial)
      case Get(_) => LastSet(acts[..|acts| - 1], k, car, initial)
  }

  lemma {:induction false} PendingIsLastSet(s: TxState, acts: seq<Action>, k: Kind, car: nat)
    requires s.Valid() && Legal(acts) && car < CAR_NUM
    ensures Exec(s, acts).state.Side(k).lens[car] == LastSet(acts, k, car, s.Side(k).lens[car])
  {
    if acts != [] {
      PendingIsLastSet(s, acts[..|acts| - 1], k, car);
    }
  }

  /** The header published after any run counts exactly the cars handed out since the last publish. */
  lemma PublishedCountsAreExact(s: TxState, acts: seq<Action>, k: Kind)
    requires s.Valid() && s.header.IdInRange() && s.Side(k).index == 0 && Legal(acts)
    ensures var r := Exec(s, acts);
      PublishedHeader(r.state).CarNum(k) == Count(r.handouts, k, r.cycle)
  {
    CountIsIndex(s, acts, k);
  }

  /** And it names the bank every one of them was handed out from. */
  lemma PublishedBankIsExact(s: TxState, acts: seq<Action>, i: nat)
    requires s.Valid() && s.header.IdInRange() && Legal(acts)
    requires i < |Exec(s, acts).handouts| && Exec(s, acts).handouts[i].cycle == Exec(s, acts).cycle
    ensures Exec(s, acts).handouts[i].bank == PublishedHeader(Exec(s, acts).state).NamedBank()
  {
    PingPongExec(s, acts);
    PublishNamesFilledBankIff(Exec(s, acts).state);
  }

  /**
   It carries the lengths the application set for those cars since the last publish and zero for the
   others, and leaves no length and no taken car behind for the next cycle.
   */
  lemma PublishedLengthsAreExact(s: TxState, acts: seq<Action>, k: Kind, car: nat)
    requires s.Valid() && s.header.IdInRange() && s.Side(k).index == 0 && Legal(acts) && car < CAR_NUM
    ensures var r := Exec(s, acts);
      var p := PublishStep(r.state);
      && p.header.CarLen(k)[car] ==
           (if car < Count(r.handouts, k, r.cycle) then LastSet(acts, k, car, s.Side(k).lens[car]) else 0)
      && p.Side(k).lens[car] == 0 && p.Side(k).index == 0
  {
    CountIsIndex(s, acts, k);
    PendingIsLastSet(s, acts, k, car);
  }

  /** Whatever the state, the published header passes the receiver's sum test over its first 31 words. */
  lemma PublishedHeaderPasses(s: TxState)
    requires s.Valid()
    ensures SumsToLast(PublishedHeader(s).Frame())
  {
    var h := PublishedHeader(s);
    assert h.Frame()[..31] == h.Body();
    assert h.Body() == h.(checkSum := 0).Body();
  }

  /** `n` publishes after header `was`: the heart beat has counted them, and other fields are as before. */
  predicate BeatsFrom(was: TxHeader, now: TxHeader, n: nat) {
    && now.heartBeat == (was.heartBeat + n) % TWO_16
    && (n > 0 ==> now.frameHead == CPU_TO_FPGA)
    && now.resv1 == was.resv1 && now.resv2 == was.resv2 && now.tail == was.tail
  }

  lemma BeatStep(was: TxHeader, r: Run, a: Action)
    requires r.state.Valid() && (a.SetLen? ==> a.car < CAR_NUM) && BeatsFrom(was, r.state.header, r.cycle)
    ensures BeatsFrom(was, Step(r, a).state.header, Step(r, a).cycle)
  {
    match a
    case Publish => BeatNext(was.heartBeat + r.cycle);
    case _ => assert Step(r, a).state.header == r.state.header;
  }

  /** Over every run: a publish touches nothing else of the header, and the heart beat counts the publishes. */
  lemma {:induction false} HeartBeatCountsPublishes(s: TxState, acts: seq<Action>)
    requires s.Valid() && Legal(acts)
    ensures BeatsFrom(s.header, Exec(s, acts).state.header, Exec(s, acts).cycle)
  {
    if acts != [] {
      HeartBeatCountsPublishes(s, acts[..|acts| - 1]);
      BeatStep(s.header, Exec(s, acts[..|acts| - 1]), acts[|acts| - 1]);
    }
  }

  lemma BeatNext(x: nat)
    ensures (x % TWO_16 + 1) % TWO_16 == (x + 1) % TWO_16
  {}

  // ---------------------------------------------------------------- what the FPGA reads back

  /** The fields of a received header frame, taken from its words. */
  datatype ReadHeader = ReadHeader(frameHead: half, heartBeat: half, carId: byte, carNumS: byte, carNumB: byte,
                                   carLenS: seq<half>, carLenB: seq<half>)

  function Unpaired(words: seq<word>): (s: seq<half>)
    requires |words| == 8
  {
    seq(CAR_NUM, i requires 0 <= i < CAR_NUM => if i % 2 == 0 then words[i / 2] % TWO_16 else words[i / 2] / TWO_16)
  }

  function ReadFrame(w: seq<word>): ReadHeader
    requires |w| == 32
  {
    ReadHeader(w[0] % TWO_16, w[0] / TWO_16, w[1] % TWO_8, w[1] / TWO_8 % TWO_8, w[1] / TWO_16 % TWO_8,
               Unpaired(w[4..12]), Unpaired(w[12..20]))
  }

  lemma UnpackWord(a: half, b: half)
    ensures (a + b * TWO_16) % TWO_16 == a && (a + b * TWO_16) / TWO_16 == b
  {}

  lemma UnpairedPairs(s: seq<half>)
    requires |s| == CAR_NUM
    ensures Unpaired(Pairs(s)) == s
  {
    forall i | 0 <= i < CAR_NUM ensures Unpaired(Pairs(s))[i] == s[i] {
      var k := i / 2;
      assert Pairs(s)[k] == s[2 * k] + s[2 * k + 1] * TWO_16;
      UnpackWord(s[2 * k], s[2 * k + 1]);
      assert i == if i % 2 == 0 then 2 * k else 2 * k + 1;
    }
  }

  lemma UnpackBytes(a: byte, b: byte, c: byte, d: byte)
    ensures var w := a + b * TWO_8 + c * TWO_16 + d * (TWO_8 * TWO_16);
      w % TWO_8 == a && w / TWO_8 % TWO_8 == b && w / TWO_16 % TWO_8 == c
  {
    var w := a + b * TWO_8 + c * TWO_16 + d * (TWO_8 * TWO_16);
    assert w / TWO_8 == b + c * TWO_8 + d * TWO_16;
    assert w / TWO_16 == c + d * TWO_8;
  }

  lemma Slices(a: seq<word>, b: seq<word>, c: seq<word>, d: seq<word>)
    ensures (a + b + c + d)[|a|..|a| + |b|] == b
    ensures (a + b + c + d)[|a| + |b|..|a| + |b| + |c|] == c
  {}

  /** The words of a header give back its fields: nothing overlaps in the packed layout. */
  lemma ReadBack(h: TxHeader)
    requires h.WellFormed()
    ensures ReadFrame(h.Frame()) ==
      ReadHeader(h.frameHead, h.heartBeat, h.carId, h.carNumS, h.carNumB, h.carLenS, h.carLenB)
  {
    UnpairedPairs(h.carLenS);
    UnpairedPairs(h.carLenB);
    UnpackWord(h.frameHead, h.heartBeat);
    UnpackBytes(h.carId, h.carNumS, h.carNumB, h.resv1);
    var head := [h.Body()[0], h.Body()[1]] + h.resv2;
    Slices(head, Pairs(h.carLenS), Pairs(h.carLenB), h.tail + [h.checkSum]);
    assert h.Frame() == head + Pairs(h.carLenS) + Pairs(h.carLenB) + (h.tail + [h.checkSum]);
  }

  /** The same by byte offsets of the packed structure. */
  lemma HeadBytes(h: TxHeader)
    requires h.WellFormed()
    ensures var f := h.Frame();
      && HalfOf(f, 0) == h.frameHead && HalfOf(f, 2) == h.heartBeat
      && ByteOf(f, 4) == h.carId && ByteOf(f, 5) == h.carNumS && ByteOf(f, 6) == h.carNumB
      && f[31] == h.checkSum
  {
    var f := h.Frame();
    UnpackWord(h.frameHead, h.heartBeat);
    UnpackBytes(h.carId, h.carNumS, h.carNumB, h.resv1);
    BytesOfWord(f, 0);
    BytesOfWord(f, 1);
  }

  lemma LengthBytes(h: TxHeader, i: nat)
    requires h.WellFormed() && i < 16
    ensures var f := h.Frame(); HalfOf(f, 16 + 2 * i) == h.carLenS[i] && HalfOf(f, 48 + 2 * i) == h.carLenB[i]
  {
    LengthWord(h, i / 2);
    PairBytes(h.Frame(), 4, h.carLenS, i);
    PairBytes(h.Frame(), 12, h.carLenB, i);
  }

  lemma LengthWord(h: TxHeader, k: nat)
    requires h.WellFormed() && k < 8
    ensures h.Frame()[4 + k] == Pairs(h.carLenS)[k] && h.Frame()[12 + k] == Pairs(h.carLenB)[k]
  {}

  lemma PairBytes(f: seq<word>, at: nat, s: seq<half>, i: nat)
    requires |s| == CAR_NUM && i < CAR_NUM && at + 8 <= |f| && f[at + i / 2] == Pairs(s)[i / 2]
    ensures HalfOf(f, 4 * at + 2 * i) == s[i]
  {
    var k := i / 2;
    BytesOfWord(f, at + k);
    UnpackWord(s[2 * k], s[2 * k + 1]);
    if i == 2 * k {
      assert 4 * at + 2 * i == 4 * (at + k);
    } else {
      assert 4 * at + 2 * i == 4 * (at + k) + 2;
    }
  }

  /**
   What the FPGA finds, byte for byte, after any run: the mark, the next heart beat, the car id of the bank just
   filled, the cars handed out since the last publish by kind, and the sum.
   */
  lemma PublishedHead(s: TxState, acts: seq<Action>, f: seq<word>)
    requires s.Valid() && s.header.IdInRange() && s.small.index == s.big.index == 0 && Legal(acts)
    requires f == PublishedHeader(Exec(s, acts).state).Frame()
    ensures HalfOf(f, 0) == 0x1234 && HalfOf(f, 2) == (s.header.heartBeat + Exec(s, acts).cycle + 1) % 0x1_0000
    ensures ByteOf(f, 4) == if Exec(s, acts).state.header.carId == 1 then 2 else 1
    ensures ByteOf(f, 5) == Count(Exec(s, acts).handouts, Small, Exec(s, acts).cycle)
    ensures ByteOf(f, 6) == Count(Exec(s, acts).handouts, Big, Exec(s, acts).cycle)
    ensures Sum(f[..31]) % 0x1_0000_0000 == f[31]
  {
    var r := Exec(s, acts);
    HeadBytes(PublishedHeader(r.state));
    PublishedCountsAreExact(s, acts, Small);
    PublishedCountsAreExact(s, acts, Big);
    PublishedIdAndBeat(s, acts);
    PublishedHeaderPasses(r.state);
  }

  lemma PublishedIdAndBeat(s: TxState, acts: seq<Action>)
    requires s.Valid() && s.header.IdInRange() && Legal(acts)
    ensures var r := Exec(s, acts);
      var h := PublishedHeader(r.state);
      && h.frameHead == 0x1234 && h.heartBeat == (s.header.heartBeat + r.cycle + 1) % 0x1_0000
      && h.carId == if r.state.header.carId == 1 then 2 else 1
  {
    PingPongExec(s, acts);
    HeartBeatCountsPublishes(s, acts);
    NextIdAndBeat(Exec(s, acts), s.header.heartBeat);
  }

  lemma NextIdAndBeat(r: Run, first: half)
    requires r.state.Valid() && r.state.header.IdInRange()
    requires r.state.header.heartBeat == (first + r.cycle) % TWO_16
    ensures var h := PublishedHeader(r.state);
      && h.frameHead == 0x1234 && h.heartBeat == (first + r.cycle + 1) % 0x1_0000
      && h.carId == if r.state.header.carId == 1 then 2 else 1
  {
    BeatNext(first + r.cycle);
  }

  /** And the lengths of car `i`: as last set by the application for a car handed out, 0 for any other. */
  lemma PublishedLengths(s: TxState, acts: seq<Action>, f: seq<word>, i: nat)
    requires s.Valid() && s.header.IdInRange() && s.small.index == s.big.index == 0 && Legal(acts) && i < 16
    requires f == PublishedHeader(Exec(s, acts).state).Frame()
    ensures HalfOf(f, 16 + 2 * i) ==
      if i < Count(Exec(s, acts).handouts, Small, Exec(s, acts).cycle)
      then LastSet(acts, Small, i, s.small.lens[i]) else 0
    ensures HalfOf(f, 48 + 2 * i) ==
      if i < Count(Exec(s, acts).handouts, Big, Exec(s, acts).cycle)
      then LastSet(acts, Big, i, s.big.lens[i]) else 0
  {
    LengthBytes(PublishedHeader(Exec(s, acts).state), i);
    PublishedLengthsAreExact(s, acts, Small, i);
    PublishedLengthsAreExact(s, acts, Big, i);
  }

  // ---------------------------------------------------------------- in bytes

  function NumOf(t: TxTrain, k: Kind): nat { if k.Small? then t.numS else t.numB }

  function SizeOf(t: TxTrain, k: Kind): nat { if k.Small? then t.sizeS else t.sizeB }

  /** Where bank `bank` of a train placed at `at` starts. */
  function BankStart(t: TxTrain, at: nat, k: Kind, bank: nat): nat {
    match k
    case Small => at + TRAIN_HEADER_LEN + if bank == 1 then t.LenS() else 0
    case Big => at + TRAIN_HEADER_LEN + 2 * t.LenS() + if bank == 1 then t.LenB() else 0
  }

  function BankBytes(t: TxTrain, k: Kind): nat { if k.Small? then t.LenS() else t.LenB() }

  lemma BankInFootprint(t: TxTrain, at: nat, k: Kind, bank: nat)
    requires !t.Empty() && bank < 2
    ensures BankStart(t, at, k, bank) + BankBytes(t, k) <= at + t.Footprint()
  {}

  lemma BanksApart(t: TxTrain, at: nat, k: Kind, bank: nat, k': Kind, bank': nat)
    requires bank < 2 && bank' < 2 && (k, bank) != (k', bank')
    ensures Apart(BankStart(t, at, k, bank), BankBytes(t, k), BankStart(t, at, k', bank'), BankBytes(t, k'))
  {}

  lemma PlaceInBank(at: nat, size: nat, n: nat, j: nat)
    requires j < n && at + size * n < TWO_64
    ensures (at + size * j) % TWO_64 == at + size * j && size * j + size <= size * n
  {
    assert size * (j + 1) == size * j + size;
    ProductGrows(size, j + 1, n);
    NoWrap(at + size * j);
  }

  lemma BankBytesAre(t: TxTrain, k: Kind)
    ensures BankBytes(t, k) == SizeOf(t, k) * NumOf(t, k)
  {}

  lemma PlacedPointer(t: TxTrain, at: nat, k: Kind, bank: nat, j: nat)
    requires t.WellFormed() && !t.Empty() && bank < 2 && j < NumOf(t, k)
    ensures PlaceTx(t, at).WellFormed()
    ensures CarPointer(PlaceTx(t, at), k, bank, j) == (BankStart(t, at, k, bank) + SizeOf(t, k) * j) % TWO_64
  {}

  /** A car lies inside its bank. */
  lemma CarInBank(t: TxTrain, at: nat, k: Kind, bank: nat, j: nat)
    requires t.WellFormed() && !t.Empty() && at + t.Footprint() < TWO_64 && bank < 2 && j < NumOf(t, k)
    ensures CarPointer(PlaceTx(t, at), k, bank, j) == BankStart(t, at, k, bank) + SizeOf(t, k) * j
    ensures SizeOf(t, k) * j + SizeOf(t, k) <= BankBytes(t, k)
  {
    BankInFootprint(t, at, k, bank);
    BankBytesAre(t, k);
    PlacedPointer(t, at, k, bank, j);
    PlaceInBank(BankStart(t, at, k, bank), SizeOf(t, k), NumOf(t, k), j);
  }

  /** Where the next buffer of a placed train is: in the second bank while car id 1 is published, else in the first. */
  lemma NextBufferAt(t: TxTrain, at: nat, h: TxHeader, j: nat)
    requires t.WellFormed() && (t.numS * t.sizeS != 0 || t.numB * t.sizeB != 0) && at + t.Footprint() < TWO_64
    ensures var p, big := PlaceTx(t, at), at + 128 + 2 * (t.numS * t.sizeS);
      && p.WellFormed()
      && (j < t.numS && h.carId == 1 ==>
            CarPointer(p, Small, h.FillBank(), j) == at + 128 + t.numS * t.sizeS + t.sizeS * j)
      && (j < t.numS && h.carId != 1 ==> CarPointer(p, Small, h.FillBank(), j) == at + 128 + t.sizeS * j)
      && (j < t.numB && h.carId == 1 ==>
            CarPointer(p, Big, h.FillBank(), j) == big + t.numB * t.sizeB + t.sizeB * j)
      && (j < t.numB && h.carId != 1 ==> CarPointer(p, Big, h.FillBank(), j) == big + t.sizeB * j)
  {
    TxCarAddresses(t, at, j);
  }

  predicate Apart(a: nat, aLen: nat, b: nat, bLen: nat) { a + aLen <= b || b + bLen <= a }

  lemma ApartInside(a: nat, aLen: nat, x: nat, xLen: nat, b: nat, bLen: nat, y: nat, yLen: nat)
    requires Apart(a, aLen, b, bLen) && x + xLen <= aLen && y + yLen <= bLen
    ensures Apart(a + x, xLen, b + y, yLen)
  {}

  lemma CarsOfBankApart(start: nat, size: nat, j: nat, j': nat)
    requires j != j'
    ensures Apart(start + size * j, size, start + size * j', size)
  {
    assert size * (j + 1) == size * j + size && size * (j' + 1) == size * j' + size;
    if j < j' {
      ProductGrows(size, j + 1, j');
    } else {
      ProductGrows(size, j' + 1, j);
    }
  }

  lemma SlotsApart(start: nat, len: nat, size: nat, j: nat, start': nat, len': nat, size': nat, j': nat)
    requires size * j + size <= len && size' * j' + size' <= len'
    requires (start == start' && size == size' && j != j') || Apart(start, len, start', len')
    ensures Apart(start + size * j, size, start' + size' * j', size')
  {
    if start == start' && size == size' && j != j' {
      CarsOfBankApart(start, size, j, j');
    } else {
      ApartInside(start, len, size * j, size, start', len', size' * j', size');
    }
  }

  /** Different cars of a placed train never share a byte. */
  lemma CarsApart(t: TxTrain, at: nat, k: Kind, bank: nat, j: nat, k': Kind, bank': nat, j': nat)
    requires t.WellFormed() && !t.Empty() && at + t.Footprint() < TWO_64
    requires bank < 2 && j < NumOf(t, k) && bank' < 2 && j' < NumOf(t, k')
    requires (k, bank, j) != (k', bank', j')
    ensures Apart(CarPointer(PlaceTx(t, at), k, bank, j), SizeOf(t, k),
                  CarPointer(PlaceTx(t, at), k', bank', j'), SizeOf(t, k'))
  {
    CarInBank(t, at, k, bank, j);
    CarInBank(t, at, k', bank', j');
    if (k, bank) != (k', bank') {
      BanksApart(t, at, k, bank, k', bank');
    }
    SlotsApart(BankStart(t, at, k, bank), BankBytes(t, k), SizeOf(t, k), j,
               BankStart(t, at, k', bank'), BankBytes(t, k'), SizeOf(t, k'), j');
  }

  /**
   In memory, over every run of a placed train: two buffers handed out less than two publishes
   apart are different bytes.
   */
  lemma HandoutsApart(t: TxTrain, at: nat, s: TxState, acts: seq<Action>, i: nat, j: nat)
    requires t.WellFormed() && !t.Empty() && at + t.Footprint() < TWO_64
    requires s.Valid() && s.header.IdInRange() && Legal(acts) && s.small.num == t.numS && s.big.num == t.numB
    requires i < j < |Exec(s, acts).handouts|
    requires Exec(s, acts).handouts[j].cycle < Exec(s, acts).handouts[i].cycle + 2
    ensures var a, b := Exec(s, acts).handouts[i], Exec(s, acts).handouts[j];
      && a.bank < 2 && b.bank < 2 && a.index < NumOf(t, a.kind) && b.index < NumOf(t, b.kind)
      && Apart(CarPointer(PlaceTx(t, at), a.kind, a.bank, a.index), SizeOf(t, a.kind),
               CarPointer(PlaceTx(t, at), b.kind, b.bank, b.index), SizeOf(t, b.kind))
  {
    var a, b := Exec(s, acts).handouts[i], Exec(s, acts).handouts[j];
    HandoutInTrain(s, acts, i);
    HandoutInTrain(s, acts, j);
    if a.kind == b.kind && a.bank == b.bank && a.index == b.index {
      NoReuseForTwoCycles(s, acts, i, j);
    }
    CarsApart(t, at, a.kind, a.bank, a.index, b.kind, b.bank, b.index);
  }

  /** And no byte handed out since the last publish belongs to a car of the bank the FPGA is reading. */
  lemma HandoutApartFromReadBank(t: TxTrain, at: nat, s: TxState, acts: seq<Action>, i: nat, k: Kind, car: nat)
    requires t.WellFormed() && !t.Empty() && at + t.Footprint() < TWO_64
    requires s.Valid() && s.header.IdInRange() && Legal(acts) && s.small.num == t.numS && s.big.num == t.numB
    requires i < |Exec(s, acts).handouts| && Exec(s, acts).handouts[i].cycle == Exec(s, acts).cycle
    requires Exec(s, acts).state.header.carId != 0 && car < NumOf(t, k)
    ensures var a, read := Exec(s, acts).handouts[i], Exec(s, acts).state.header.NamedBank();
      && a.bank < 2 && a.index < NumOf(t, a.kind) && 0 <= read < 2
      && Apart(CarPointer(PlaceTx(t, at), a.kind, a.bank, a.index), SizeOf(t, a.kind),
               CarPointer(PlaceTx(t, at), k, read, car), SizeOf(t, k))
  {
    var a := Exec(s, acts).handouts[i];
    HandoutInTrain(s, acts, i);
    FillBankIsNotReadBank(s, acts, i);
    PingPongExec(s, acts);
    CarsApart(t, at, a.kind, a.bank, a.index, k, Exec(s, acts).state.header.NamedBank(), car);
  }

  lemma {:induction false} NumsKept(s: TxState, acts: seq<Action>)
    requires s.Valid() && Legal(acts)
    ensures Exec(s, acts).state.small.num == s.small.num && Exec(s, acts).state.big.num == s.big.num
  {
    if acts != [] {
      NumsKept(s, acts[..|acts| - 1]);
    }
  }

  lemma HandoutInTrain(s: TxState, acts: seq<Action>, i: nat)
    requires s.Valid() && s.header.IdInRange() && Legal(acts) && i < |Exec(s, acts).handouts|
    ensures Exec(s, acts).handouts[i].bank < 2
    ensures Exec(s, acts).handouts[i].index < s.Side(Exec(s, acts).handouts[i].kind).num
  {
    PingPongExec(s, acts);
    NumsKept(s, acts);
  }

  /**
   On the driver itself: two buffers it has handed out less than two publishes apart share no byte, if the
   train has been placed and started with car id 0, 1 or 2.
   */
  lemma DriverHandoutsApart(tx: TrainTx, t: TxTrain, at: nat, i: nat, j: nat)
    requires tx.Valid() && tx.slot == PlaceTx(t, at) && tx.start.header.IdInRange()
    requires t.WellFormed() && !t.Empty() && at + t.Footprint() < TWO_64
    requires i < j < |tx.Trace().handouts| && tx.Trace().handouts[j].cycle < tx.Trace().handouts[i].cycle + 2
    ensures var a, b := tx.Trace().handouts[i], tx.Trace().handouts[j];
      && a.bank < 2 && b.bank < 2 && a.index < CAR_NUM && b.index < CAR_NUM
      && Apart(CarPointer(tx.slot, a.kind, a.bank, a.index), SizeOf(t, a.kind),
               CarPointer(tx.slot, b.kind, b.bank, b.index), SizeOf(t, b.kind))
  {
    PlacingKeepsNums(t, at);
    HandoutsApart(t, at, tx.start, tx.acts, i, j);
  }

  lemma PlacingKeepsNums(t: TxTrain, at: nat)
    ensures PlaceTx(t, at).numS == t.numS && PlaceTx(t, at).numB == t.numB
  {}

  /** And while the FPGA reads a bank, the driver hands out no byte of it. */
  lemma DriverAvoidsReadBank(tx: TrainTx, t: TxTrain, at: nat, i: nat, k: Kind, car: nat)
    requires tx.Valid() && tx.slot == PlaceTx(t, at) && tx.start.header.IdInRange()
    requires t.WellFormed() && !t.Empty() && at + t.Footprint() < TWO_64
    requires i < |tx.Trace().handouts| && tx.Trace().handouts[i].cycle == tx.Trace().cycle
    requires tx.header.carId != 0 && car < NumOf(t, k)
    ensures var a, read := tx.Trace().handouts[i], tx.header.NamedBank();
      && a.bank < 2 && a.index < CAR_NUM && 0 <= read < 2
      && Apart(CarPointer(tx.slot, a.kind, a.bank, a.index), SizeOf(t, a.kind),
               CarPointer(tx.slot, k, read, car), SizeOf(t, k))
  {
    PlacingKeepsNums(t, at);
    HandoutApartFromReadBank(t, at, tx.start, tx.acts, i, k, car);
  }
}
