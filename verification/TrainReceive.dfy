/**
 The checksummed receiver of an FPGA-to-CPU train, in its two builds. Memory is an array of 32-bit
 words; headers and cars are pointers into it, so a car is a window into the whole buffer.
 */
module TrainReceive {
  import opened Words
  import opened TrainLayout
  import TrainTransmit

  const FRAME_TYPE_FT3: byte := 0x01
  const FRAME_TYPE_ETH: byte := 0x02
  const FRAME_TYPE_GETH: byte := 0x03
  const FRAME_TYPE_AURORA: byte := 0x05
  const FRAME_TYPE_REDUNDANCY: byte := 0x22

  const HEADER_WORDS := 32
  const CAR_HEADER_LEN := 32
  const CHECK_SUM_LEN := 4
  const ALIGNED_SIZE := 16

  /** The management core's build, and the build of the other cores. */
  datatype Build = Mcu20 | OtherCore

  datatype Verdict = LenError | SumError | Accepted

  // ---------------------------------------------------------------- fields of the packed structures

  function CarId(mem: seq<word>, header: nat): byte
    requires header + HEADER_WORDS <= |mem|
  {
    mem[header + 1] % TWO_8
  }

  function CarNum(mem: seq<word>, header: nat): byte
    requires header + HEADER_WORDS <= |mem|
  {
    mem[header + 1] / TWO_8 % TWO_8
  }

  function PayloadLen(mem: seq<word>, car: nat): half
    requires car + 2 < |mem|
  {
    mem[car + 2] % TWO_16
  }

  function PortType(mem: seq<word>, car: nat): byte
    requires car + 2 < |mem|
  {
    mem[car + 1] / TWO_16 % TWO_8
  }

  /** The header passes: its last word is the sum of the other 31. */
  predicate HeaderOk(mem: seq<word>, header: nat)
    requires header + HEADER_WORDS <= |mem|
  {
    SumsToLast(mem[header..header + HEADER_WORDS])
  }

  /** The header word holding the car count, with the count cut to the table size. */
  function Clamped(mem: seq<word>, header: nat): (m: seq<word>)
    requires header + HEADER_WORDS <= |mem|
    ensures |m| == |mem|
  {
    var w := mem[header + 1];
    if CarNum(mem, header) >= CAR_NUM then
      mem[header + 1 := w - CarNum(mem, header) * TWO_8 + CAR_NUM * TWO_8]
    else mem
  }

  // ---------------------------------------------------------------- one car

  function Padding(len: half): half {
    if len % ALIGNED_SIZE != 0 then ALIGNED_SIZE - len % ALIGNED_SIZE else 0
  }

  /** Which word of a car holds its checksum. Lengths are kept in 16 bits, the padded one only in the MCU2_0 build. */
  function SumIndex(build: Build, payloadLen: half): half {
    var len: half := (payloadLen + CAR_HEADER_LEN + CHECK_SUM_LEN) % TWO_16;
    match build
    case Mcu20 => ((len + Padding(len)) % TWO_16 / 4 - 1) % TWO_16
    case OtherCore => ((len + Padding(len)) / 4 - 1) % TWO_16
  }

  predicate LenOk(mem: seq<word>, car: nat, size: half)
    requires car + 2 < |mem|
  {
    0 < PayloadLen(mem, car) < size
  }

  /** Everything the receiver reads of a car lies in memory. */
  predicate Readable(mem: seq<word>, car: nat, size: half, build: Build) {
    car + 2 < |mem| && (LenOk(mem, car, size) ==> car + SumIndex(build, PayloadLen(mem, car)) < |mem|)
  }

  function Classify(mem: seq<word>, car: nat, size: half, build: Build): Verdict
    requires Readable(mem, car, size, build)
  {
    if !LenOk(mem, car, size) then LenError
    else if SumsToLast(mem[car..car + SumIndex(build, PayloadLen(mem, car)) + 1]) then Accepted
    else SumError
  }

  /** `end` is where a car ends: header, payload and checksum, padded to 16 bytes and no further. */
  predicate EndsPaddedCar(end: nat, payloadLen: nat) {
    var len := payloadLen + CAR_HEADER_LEN + CHECK_SUM_LEN;
    len <= end < len + ALIGNED_SIZE && end % ALIGNED_SIZE == 0
  }

  /** The byte behind the word used, from the padded length: both ends of its range fall to the top. */
  lemma EndByPadded(build: Build, payloadLen: half)
    ensures var len: half := (payloadLen + CAR_HEADER_LEN + CHECK_SUM_LEN) % TWO_16;
      var padded := len + Padding(len);
      4 * (SumIndex(build, payloadLen) + 1) ==
        if padded == 0 || (build.Mcu20? && padded == TWO_16) then 4 * TWO_16 else padded
  {
    var len: half := (payloadLen + CAR_HEADER_LEN + CHECK_SUM_LEN) % TWO_16;
    PaddedIsAligned(len);
    IndexByPadded(build, len + Padding(len));
  }

  lemma IndexByPadded(build: Build, padded: nat)
    requires padded <= TWO_16 && padded % 16 == 0
    ensures var len := if build.Mcu20? then padded % TWO_16 else padded;
      4 * ((len / 4 - 1) % TWO_16 + 1) ==
        if padded == 0 || (build.Mcu20? && padded == TWO_16) then 4 * TWO_16 else padded
  {}

  /** The checksum is the last word of the padded car exactly as long as the 16-bit lengths hold it. */
  lemma SumIndexEndsCarIff(build: Build, payloadLen: half)
    ensures EndsPaddedCar(4 * (SumIndex(build, payloadLen) + 1), payloadLen)
            <==> payloadLen < if build.Mcu20? then 65485 else 65500
  {
    EndByPadded(build, payloadLen);
    var len: half := (payloadLen + CAR_HEADER_LEN + CHECK_SUM_LEN) % TWO_16;
    PaddedIsAligned(len);
    PlainLength(payloadLen);
    EndsIff(build, payloadLen, len, len + Padding(len));
  }

  lemma PlainLength(payloadLen: half)
    ensures (payloadLen + CAR_HEADER_LEN + CHECK_SUM_LEN) % TWO_16 ==
            if payloadLen < 65500 then payloadLen + 36 else payloadLen + 36 - TWO_16
  {}

  lemma EndsIff(build: Build, payloadLen: half, len: half, padded: nat)
    requires len == if payloadLen < 65500 then payloadLen + 36 else payloadLen + 36 - TWO_16
    requires padded % 16 == 0 && len <= padded < len + 16 && (padded == TWO_16 <==> len > 65520)
    ensures EndsPaddedCar(if padded == 0 || (build.Mcu20? && padded == TWO_16) then 4 * TWO_16 else padded, payloadLen)
            <==> payloadLen < if build.Mcu20? then 65485 else 65500
  {}

  method ChecksumIndex(build: Build, payloadLen: half) returns (index: half)
    ensures index == SumIndex(build, payloadLen)
    ensures 0 < payloadLen < 65485 ==> EndsPaddedCar(4 * (index + 1), payloadLen)
  {
    var len: half := (payloadLen + CAR_HEADER_LEN + CHECK_SUM_LEN) % TWO_16;
    var diff := len % ALIGNED_SIZE;
    if diff != 0 {
      diff := ALIGNED_SIZE - diff;
    }
    if build == Mcu20 {
      var lenSum: half := (len + diff) % TWO_16;
      index := (lenSum / 4 - 1) % TWO_16;
    } else {
      index := ((len + diff) / 4 - 1) % TWO_16;
    }
    SumIndexEndsCarIff(build, payloadLen);
  }

  /** One car: its length test, its sum over the padded length, and its port type. */
  method CheckCar(mem: array<word>, car: nat, size: half, build: Build) returns (v: Verdict, portType: byte)
    requires Readable(mem[..], car, size, build)
    ensures v == Classify(mem[..], car, size, build) && portType == PortType(mem[..], car)
  {
    portType := mem[car + 1] / TWO_16 % TWO_8;
    var payloadLen := mem[car + 2] % TWO_16;
    if payloadLen >= size || payloadLen == 0 {
      return LenError, portType;
    }
    var index := ChecksumIndex(build, payloadLen);
    var sum := Checksum(mem[car..car + index]);
    var frame := mem[car..car + index + 1];
    assert frame[..|frame| - 1] == mem[car..car + index];
    v := if sum == mem[car + index] then Accepted else SumError;
  }

  /** The two builds look for the checksum in the same word except for these fifteen payload lengths. */
  lemma BuildsAgreeOnIndexIff(payloadLen: half)
    ensures SumIndex(Mcu20, payloadLen) == SumIndex(OtherCore, payloadLen)
            <==> !(65485 <= payloadLen <= 65499)
  {
    var len: half := (payloadLen + CAR_HEADER_LEN + CHECK_SUM_LEN) % TWO_16;
    assert len == if payloadLen < 65500 then payloadLen + 36 else payloadLen + 36 - TWO_16;
    PaddedIsAligned(len);
    SplitsOnlyAtWrap(len + Padding(len));
  }

  lemma SplitsOnlyAtWrap(padded: nat)
    requires padded <= TWO_16
    ensures (padded % TWO_16 / 4 - 1) % TWO_16 == (padded / 4 - 1) % TWO_16 <==> padded != TWO_16
  {}

  lemma PaddedIsAligned(len: half)
    ensures exists k :: len + Padding(len) == 16 * k
    ensures (len + Padding(len)) % 16 == 0 && Padding(len) < 16
    ensures len <= len + Padding(len) <= TWO_16
    ensures len + Padding(len) == TWO_16 <==> len > 65520
  {
    var k := (len + Padding(len)) / 16;
    assert len + Padding(len) == 16 * k;
  }

  /** Both builds give a car the same verdict if the car size is at most 65485; the shipped sizes are 128 and 2048. */
  lemma BuildsAgree(mem: seq<word>, car: nat, size: half)
    requires size <= 65485 && Readable(mem, car, size, Mcu20)
    ensures Readable(mem, car, size, OtherCore)
    ensures Classify(mem, car, size, Mcu20) == Classify(mem, car, size, OtherCore)
  {
    if LenOk(mem, car, size) {
      BuildsAgreeOnIndexIff(PayloadLen(mem, car));
    }
  }

  /** A car of 65485 bytes whose checksum is where the other cores look for it, and nothing else in memory. */
  function SplitWitness(): seq<word> {
    seq(TWO_16, i => if i == 2 || i == 16383 then 65485 else 0)
  }

  lemma WitnessFields()
    ensures PayloadLen(SplitWitness(), 0) == 65485
    ensures SumIndex(OtherCore, 65485) == 16383 && SumIndex(Mcu20, 65485) == 65535
  {}

  /** Up to the first check word only the payload length is not zero, so the sum is that length. */
  lemma WitnessSumsShort()
    ensures SumsToLast(SplitWitness()[0..16384])
  {
    var zeros: seq<nat> := seq(16383, _ => 0);
    SumZeros(zeros);
    SumUpdate(zeros, 2, 65485);
    assert SplitWitness()[0..16384][..16383] == zeros[2 := 65485];
  }

  /** Up to the second it is counted twice. */
  lemma WitnessSumsLong()
    ensures !SumsToLast(SplitWitness()[0..65536])
  {
    var zeros: seq<nat> := seq(65535, _ => 0);
    SumZeros(zeros);
    SumUpdate(zeros, 2, 65485);
    SumUpdate(zeros[2 := 65485], 16383, 65485);
    assert SplitWitness()[0..65536][..65535] == zeros[2 := 65485][16383 := 65485];
  }

  /** With larger cars the builds can disagree: the bound on the car size is exact. */
  lemma BuildsDisagree(size: half)
    requires size > 65485
    ensures Readable(SplitWitness(), 0, size, Mcu20) && Readable(SplitWitness(), 0, size, OtherCore)
    ensures Classify(SplitWitness(), 0, size, OtherCore) == Accepted
    ensures Classify(SplitWitness(), 0, size, Mcu20) == SumError
  {
    WitnessFields();
    WitnessSumsShort();
    WitnessSumsLong();
  }

  // ---------------------------------------------------------------- a whole train

  /** What the receiver makes of one slot. */
  datatype Seen = Seen(verdict: Verdict, portType: byte)

  predicate AllReadable(mem: seq<word>, cars: seq<nat>, size: half, build: Build) {
    forall i :: 0 <= i < |cars| ==> Readable(mem, cars[i], size, build)
  }

  function Examined(mem: seq<word>, cars: seq<nat>, size: half, build: Build): seq<Seen>
    requires AllReadable(mem, cars, size, build)
  {
    seq(|cars|, i requires 0 <= i < |cars| => Seen(Classify(mem, cars[i], size, build), PortType(mem, cars[i])))
  }

  /** Lifted to a train: both receivers then see the same verdicts, so they count, accept and reject the same cars. */
  lemma BuildsExamineAlike(mem: seq<word>, cars: seq<nat>, size: half)
    requires size <= 65485 && AllReadable(mem, cars, size, Mcu20)
    ensures AllReadable(mem, cars, size, OtherCore)
    ensures Examined(mem, cars, size, Mcu20) == Examined(mem, cars, size, OtherCore)
  {
    forall i | 0 <= i < |cars|
      ensures Readable(mem, cars[i], size, OtherCore)
      ensures Classify(mem, cars[i], size, Mcu20) == Classify(mem, cars[i], size, OtherCore)
    {
      BuildsAgree(mem, cars[i], size);
    }
  }

  /** The slots below `n` whose car is accepted and of one of the given port types, in slot order. */
  function Slots(seen: seq<Seen>, n: nat, types: set<byte>): seq<nat>
    requires n <= |seen|
  {
    if n == 0 then []
    else if seen[n - 1].verdict == Accepted && seen[n - 1].portType in types then Slots(seen, n - 1, types) + [n - 1]
    else Slots(seen, n - 1, types)
  }

  /** The management core's counter of accepted Ethernet frames. */
  function CountEth(c: word, seen: seq<Seen>, n: nat): word
    requires n <= |seen|
  {
    if n == 0 then c
    else if seen[n - 1].verdict == Accepted && seen[n - 1].portType == FRAME_TYPE_ETH then Inc(CountEth(c, seen, n - 1))
    else CountEth(c, seen, n - 1)
  }

  /** The cars in the given slots. */
  function Picked(cars: seq<nat>, slots: seq<nat>): seq<nat>
    requires forall k :: 0 <= k < |slots| ==> slots[k] < |cars|
  {
    seq(|slots|, k requires 0 <= k < |slots| => cars[slots[k]])
  }

  /** The accepted Ethernet cars of the first `n` slots. */
  function EthCars(cars: seq<nat>, seen: seq<Seen>, n: nat): seq<nat>
    requires n <= |cars| && n <= |seen|
  {
    if n == 0 then []
    else if seen[n - 1].verdict == Accepted && seen[n - 1].portType == FRAME_TYPE_ETH then
      EthCars(cars, seen, n - 1) + [cars[n - 1]]
    else EthCars(cars, seen, n - 1)
  }

  lemma PickedAppend(cars: seq<nat>, slots: seq<nat>, i: nat)
    requires i < |cars| && forall k :: 0 <= k < |slots| ==> slots[k] < |cars|
    ensures Picked(cars, slots + [i]) == Picked(cars, slots) + [cars[i]]
  {}

  /** They are the cars in the slots that hold an accepted Ethernet car, in slot order. */
  lemma {:induction false} EthCarsExact(cars: seq<nat>, seen: seq<Seen>, n: nat)
    requires n <= |cars| && n <= |seen|
    ensures var s := Slots(seen, n, {0x02});
      (forall k :: 0 <= k < |s| ==> s[k] < n) && EthCars(cars, seen, n) == Picked(cars, s)
  {
    if n > 0 {
      EthCarsExact(cars, seen, n - 1);
      PickedAppend(cars, Slots(seen, n - 1, {FRAME_TYPE_ETH}), n - 1);
    }
  }

  lemma EthNext(c: word, cars: seq<nat>, seen: seq<Seen>, n: nat, v: Verdict, t: byte)
    requires n < |cars| && n < |seen| && seen[n] == Seen(v, t)
    ensures var hit := v == Accepted && t == FRAME_TYPE_ETH;
      && CountEth(c, seen, n + 1) == (if hit then Inc(CountEth(c, seen, n)) else CountEth(c, seen, n))
      && EthCars(cars, seen, n + 1) == EthCars(cars, seen, n) + if hit then [cars[n]] else []
  {}

  lemma {:induction false} CountEthTotal(c: word, seen: seq<Seen>, n: nat)
    requires n <= |seen|
    ensures CountEth(c, seen, n) == (c + |Slots(seen, n, {0x02})|) % TWO_32
  {
    if n > 0 {
      CountEthTotal(c, seen, n - 1);
      IncWraps(c + |Slots(seen, n - 1, {FRAME_TYPE_ETH})|);
    }
  }

  /** The frame counters of the other cores, by type. */
  datatype TypeCounts = TypeCounts(ft3: word, geth: word, aurora: word) {
    function Plus(t: byte): TypeCounts {
      if t == FRAME_TYPE_FT3 then this.(ft3 := Inc(ft3))
      else if t == FRAME_TYPE_GETH then this.(geth := Inc(geth))
      else if t == FRAME_TYPE_AURORA then this.(aurora := Inc(aurora))
      else this
    }
  }

  function CountTypes(c: TypeCounts, seen: seq<Seen>, n: nat): TypeCounts
    requires n <= |seen|
  {
    if n == 0 then c
    else if seen[n - 1].verdict == Accepted then CountTypes(c, seen, n - 1).Plus(seen[n - 1].portType)
    else CountTypes(c, seen, n - 1)
  }

  lemma CountTypesNext(c: TypeCounts, seen: seq<Seen>, n: nat, v: Verdict, t: byte)
    requires n < |seen| && seen[n] == Seen(v, t)
    ensures var before := CountTypes(c, seen, n);
      CountTypes(c, seen, n + 1) == if v == Accepted then before.Plus(t) else before
  {}

  lemma {:induction false} CountTypesTotal(c: TypeCounts, seen: seq<Seen>, n: nat)
    requires n <= |seen|
    ensures CountTypes(c, seen, n) == TypeCounts(
      (c.ft3 + |Slots(seen, n, {0x01})|) % TWO_32,
      (c.geth + |Slots(seen, n, {0x03})|) % TWO_32,
      (c.aurora + |Slots(seen, n, {0x05})|) % TWO_32)
  {
    if n > 0 {
      CountTypesTotal(c, seen, n - 1);
      IncWraps(c.ft3 + |Slots(seen, n - 1, {FRAME_TYPE_FT3})|);
      IncWraps(c.geth + |Slots(seen, n - 1, {FRAME_TYPE_GETH})|);
      IncWraps(c.aurora + |Slots(seen, n - 1, {FRAME_TYPE_AURORA})|);
    }
  }

  /** Exactly the accepted cars of those types, each once, in slot order. */
  lemma {:induction false} SlotsExact(seen: seq<Seen>, n: nat, types: set<byte>)
    requires n <= |seen|
    ensures var s := Slots(seen, n, types);
      && (forall k :: 0 <= k < |s| ==> s[k] < n)
      && (forall k, l :: 0 <= k < l < |s| ==> s[k] < s[l])
      && (forall i :: 0 <= i < n ==> (i in s <==> seen[i].verdict == Accepted && seen[i].portType in types))
  {
    if n > 0 {
      SlotsExact(seen, n - 1, types);
    }
  }

  /** The error counters of each slot: the slots below `n` with verdict `v` have counted one more. */
  ghost predicate SlotCounted(was: seq<word>, now: seq<word>, seen: seq<Seen>, n: nat, v: Verdict) {
    && |was| == |now| == CAR_NUM && n <= CAR_NUM && n <= |seen|
    && forall i :: 0 <= i < CAR_NUM ==>
         now[i] == if i < n && seen[i].verdict == v then Inc(was[i]) else was[i]
  }

  /** How many of the first `n` slots get a given verdict. */
  function Tally(seen: seq<Seen>, n: nat, v: Verdict): nat
    requires n <= |seen|
  {
    if n == 0 then 0 else Tally(seen, n - 1, v) + if seen[n - 1].verdict == v then 1 else 0
  }

  lemma {:induction false} TallyTotal(seen: seq<Seen>, n: nat)
    requires n <= |seen|
    ensures Tally(seen, n, LenError) + Tally(seen, n, SumError) + Tally(seen, n, Accepted) == n
  {
    if n > 0 {
      TallyTotal(seen, n - 1);
    }
  }

  predicate NoneFull(counters: seq<word>) {
    forall i :: 0 <= i < |counters| ==> counters[i] + 1 < TWO_32
  }

  /** A counter table grows by as many as there are slots with its verdict, less 2^32 for each counter that wraps. */
  lemma {:induction false} CountedSum(was: seq<word>, now: seq<word>, seen: seq<Seen>, n: nat, v: Verdict, k: nat)
    returns (wraps: nat)
    requires SlotCounted(was, now, seen, n, v) && k <= CAR_NUM
    ensures Sum(now[..k]) == Sum(was[..k]) + Tally(seen, if k < n then k else n, v) - TWO_32 * wraps
    ensures NoneFull(was) ==> wraps == 0
  {
    wraps := 0;
    if k > 0 {
      wraps := CountedSum(was, now, seen, n, v, k - 1);
      assert now[..k][..k - 1] == now[..k - 1] && was[..k][..k - 1] == was[..k - 1];
      if k <= n && seen[k - 1].verdict == v && was[k - 1] == TWO_32 - 1 {
        wraps := wraps + 1;
      }
    }
  }

  /** What a table of counters has counted in all. */
  function Gained(was: seq<word>, now: seq<word>): int { Sum(now) - Sum(was) }

  lemma CountedTotal(was: seq<word>, now: seq<word>, seen: seq<Seen>, n: nat, v: Verdict) returns (wraps: nat)
    requires SlotCounted(was, now, seen, n, v)
    ensures Gained(was, now) == Tally(seen, n, v) - TWO_32 * wraps
    ensures NoneFull(was) ==> wraps == 0
  {
    wraps := CountedSum(was, now, seen, n, v, CAR_NUM);
    assert now[..CAR_NUM] == now && was[..CAR_NUM] == was;
  }

  /**
   Each car of a good train is counted exactly once: as a length error, a sum error, or an accepted car;
   modulo 2^32 in any case, and outright if no error counter is about to wrap.
   */
  lemma EachCarCountedOnce(lenWas: seq<word>, lenNow: seq<word>, sumWas: seq<word>, sumNow: seq<word>,
                           seen: seq<Seen>, n: nat)
    requires SlotCounted(lenWas, lenNow, seen, n, LenError) && SlotCounted(sumWas, sumNow, seen, n, SumError)
    ensures (Gained(lenWas, lenNow) + Gained(sumWas, sumNow) + Tally(seen, n, Accepted) - n) % TWO_32 == 0
    ensures NoneFull(lenWas) && NoneFull(sumWas) ==>
      Gained(lenWas, lenNow) + Gained(sumWas, sumNow) + Tally(seen, n, Accepted) == n
  {
    var lens := CountedTotal(lenWas, lenNow, seen, n, LenError);
    var sums := CountedTotal(sumWas, sumNow, seen, n, SumError);
    TallyTotal(seen, n);
    WholeTurns(Gained(lenWas, lenNow) + Gained(sumWas, sumNow) + Tally(seen, n, Accepted) - n, lens + sums);
  }

  lemma WholeTurns(x: int, k: nat)
    requires x == -TWO_32 * k
    ensures x % TWO_32 == 0
  {}

  /** One Ethernet car passed on: its buffer, its rank, and how many there are. */
  datatype Queued = Queued(car: nat, rank: nat, total: nat)

  function EnetQueue(cars: seq<nat>): seq<Queued> {
    seq(|cars|, k requires 0 <= k < |cars| => Queued(cars[k], k, |cars|))
  }

  method QueueAll(cars: seq<nat>) returns (queued: seq<Queued>)
    ensures queued == EnetQueue(cars)
  {
    queued := [];
    var i := 0;
    while i < |cars|
      invariant 0 <= i <= |cars|
      invariant queued == EnetQueue(cars)[..i]
    {
      queued := queued + [Queued(cars[i], i, |cars|)];
      i := i + 1;
    }
  }

  /** One car passed to the handler of its port type. */
  datatype Delivery = Delivery(portType: byte, car: nat)

  class TrainRx {
    const header: nat
    const car0: seq<nat>
    const car1: seq<nat>
    const carSize: half
    var rxEth: word
    var rxGeth: word
    var rxFt3: word
    var rxAurora: word
    var carNumOk: word
    var carNumErrs: word
    var headerSumErr: word
    /** The management core's mark that it has seen a good header. */
    var headerSeen: bool
    const carLenErrs: array<word>
    const carSumErrs: array<word>

    ghost predicate Valid() {
      && |car0| == |car1| == CAR_NUM
      && carLenErrs.Length == carSumErrs.Length == CAR_NUM && carLenErrs != carSumErrs
    }

    constructor (header: nat, car0: seq<nat>, car1: seq<nat>, carSize: half)
      requires |car0| == |car1| == CAR_NUM
      ensures Valid() && this.header == header && this.car0 == car0 && this.car1 == car1 && this.carSize == carSize
      ensures rxEth == rxGeth == rxFt3 == rxAurora == carNumOk == carNumErrs == headerSumErr == 0 && !headerSeen
      ensures fresh(carLenErrs) && fresh(carSumErrs)
      ensures forall i :: 0 <= i < CAR_NUM ==> carLenErrs[i] == 0 && carSumErrs[i] == 0
    {
      this.header, this.car0, this.car1, this.carSize := header, car0, car1, carSize;
      rxEth, rxGeth, rxFt3, rxAurora, carNumOk, carNumErrs, headerSumErr := 0, 0, 0, 0, 0, 0, 0;
      headerSeen := false;
      carLenErrs := new word[CAR_NUM](_ => 0);
      carSumErrs := new word[CAR_NUM](_ => 0);
    }

    /** The cars of a clamped image: the bank the FPGA filled, id 1 being bank 0 and anything else bank 1. */
    function Cars(mem: seq<word>): seq<nat>
      requires header + HEADER_WORDS <= |mem| && CarNum(mem, header) <= CAR_NUM == |car0| == |car1|
    {
      (if CarId(mem, header) == 1 then car0 else car1)[..CarNum(mem, header)]
    }

    /** Memory is large enough for what a receive of this image reads. */
    ghost predicate Receivable(mem: seq<word>, build: Build)
      requires Valid()
    {
      && header + HEADER_WORDS <= |mem|
      && (HeaderOk(mem, header) ==>
            var m := Clamped(mem, header);
            CarNum(m, header) <= CAR_NUM && AllReadable(m, Cars(m), carSize, build))
    }

    /** Checks the header sum and clamps the car count in place; a bad header is counted and nothing else happens. */
    method OpenTrain(mem: array<word>) returns (ok: bool)
      requires Valid() && header + HEADER_WORDS <= mem.Length && mem != carLenErrs && mem != carSumErrs
      modifies this`headerSumErr, mem
      ensures ok == HeaderOk(old(mem[..]), header)
      ensures if ok then headerSumErr == old(headerSumErr) && mem[..] == Clamped(old(mem[..]), header)
              else headerSumErr == Inc(old(headerSumErr)) && mem[..] == old(mem[..])
    {
      var frame := mem[header..header + HEADER_WORDS];
      var sum := Checksum(mem[header..header + 31]);
      assert frame[..31] == mem[header..header + 31];
      ok := sum == mem[header + 31];
      if !ok {
        headerSumErr := Inc(headerSumErr);
        return;
      }
      var carNum := mem[header + 1] / TWO_8 % TWO_8;
      if carNum >= CAR_NUM {
        mem[header + 1] := mem[header + 1] - carNum * TWO_8 + CAR_NUM * TWO_8;
      }
    }

    /** The per-slot error counter an examined car falls into, if any. */
    method CountVerdict(i: nat, v: Verdict)
      requires Valid() && i < CAR_NUM
      modifies carLenErrs, carSumErrs
      ensures carLenErrs[..] == Bumped(old(carLenErrs[..]), i, v == LenError)
      ensures carSumErrs[..] == Bumped(old(carSumErrs[..]), i, v == SumError)
    {
      match v
      case LenError => carLenErrs[i] := Inc(carLenErrs[i]);
      case SumError => carSumErrs[i] := Inc(carSumErrs[i]);
      case Accepted =>
    }

    /** Checks the next car of a train and counts its error, if it has one. */
    method ExamineCar(mem: array<word>, cars: seq<nat>, i: nat, build: Build,
                      ghost m: seq<word>, ghost seen: seq<Seen>, ghost lenWas: seq<word>, ghost sumWas: seq<word>)
      returns (v: Verdict, portType: byte)
      requires Valid() && mem != carLenErrs && mem != carSumErrs && i < |cars| <= CAR_NUM && mem[..] == m
      requires AllReadable(m, cars, carSize, build) && seen == Examined(m, cars, carSize, build)
      requires SlotCounted(lenWas, carLenErrs[..], seen, i, LenError)
      requires SlotCounted(sumWas, carSumErrs[..], seen, i, SumError)
      modifies carLenErrs, carSumErrs
      ensures seen[i] == Seen(v, portType)
      ensures SlotCounted(lenWas, carLenErrs[..], seen, i + 1, LenError)
      ensures SlotCounted(sumWas, carSumErrs[..], seen, i + 1, SumError)
    {
      v, portType := CheckCar(mem, cars[i], carSize, build);
      SlotCountedNext(lenWas, carLenErrs[..], seen, i, LenError);
      SlotCountedNext(sumWas, carSumErrs[..], seen, i, SumError);
      CountVerdict(i, v);
    }

    /** Counts an accepted frame by its type. */
    method CountType(portType: byte)
      modifies this`rxFt3, this`rxGeth, this`rxAurora
      ensures TypeCounts(rxFt3, rxGeth, rxAurora) == old(TypeCounts(rxFt3, rxGeth, rxAurora)).Plus(portType)
    {
      if portType == FRAME_TYPE_FT3 {
        rxFt3 := Inc(rxFt3);
      } else if portType == FRAME_TYPE_GETH {
        rxGeth := Inc(rxGeth);
      } else if portType == FRAME_TYPE_AURORA {
        rxAurora := Inc(rxAurora);
      }
    }

    /** Counts a good train as empty or not. */
    method CountTrain(n: nat)
      modifies this`carNumErrs, this`carNumOk
      ensures carNumErrs == (if n == 0 then Inc(old(carNumErrs)) else old(carNumErrs))
      ensures carNumOk == (if n == 0 then old(carNumOk) else Inc(old(carNumOk)))
    {
      if n == 0 {
        carNumErrs := Inc(carNumErrs);
      }
      if n > 0 {
        carNumOk := Inc(carNumOk);
      }
    }

    /** An accepted Ethernet car is counted and collected. */
    method CollectEth(v: Verdict, portType: byte, car: nat, enetCars: seq<nat>) returns (collected: seq<nat>)
      modifies this`rxEth
      ensures var hit := v == Accepted && portType == FRAME_TYPE_ETH;
        && rxEth == (if hit then Inc(old(rxEth)) else old(rxEth))
        && collected == enetCars + if hit then [car] else []
    {
      collected := enetCars;
      if v == Accepted {
        if portType == FRAME_TYPE_ETH {
          rxEth := Inc(rxEth);
          collected := collected + [car];
        }
      }
    }

    /** The management core's loop over the cars of a good train. */
    method ScanMcu20(mem: array<word>, cars: seq<nat>, ghost m: seq<word>, ghost seen: seq<Seen>)
      returns (enetCars: seq<nat>)
      requires Valid() && mem != carLenErrs && mem != carSumErrs && |cars| <= CAR_NUM && mem[..] == m
      requires AllReadable(m, cars, carSize, Mcu20) && seen == Examined(m, cars, carSize, Mcu20)
      modifies this`rxEth, carLenErrs, carSumErrs
      ensures enetCars == EthCars(cars, seen, |cars|)
      ensures rxEth == CountEth(old(rxEth), seen, |cars|)
      ensures SlotCounted(old(carLenErrs[..]), carLenErrs[..], seen, |cars|, LenError)
      ensures SlotCounted(old(carSumErrs[..]), carSumErrs[..], seen, |cars|, SumError)
    {
      ghost var lenWas, sumWas, ethWas := carLenErrs[..], carSumErrs[..], rxEth;
      enetCars := [];
      var i := 0;
      while i < |cars|
        invariant 0 <= i <= |cars| && mem[..] == m
        invariant SlotCounted(lenWas, carLenErrs[..], seen, i, LenError)
        invariant SlotCounted(sumWas, carSumErrs[..], seen, i, SumError)
        invariant enetCars == EthCars(cars, seen, i) && rxEth == CountEth(ethWas, seen, i)
      {
        var v, portType := ExamineCar(mem, cars, i, Mcu20, m, seen, lenWas, sumWas);
        EthNext(ethWas, cars, seen, i, v, portType);
        enetCars := CollectEth(v, portType, cars[i], enetCars);
        i := i + 1;
      }
    }

    /** The cars of a good train, counted, collected and queued. */
    method TakeMcu20(mem: array<word>, ghost m: seq<word>) returns (queued: seq<Queued>)
      requires Valid() && mem != carLenErrs && mem != carSumErrs && mem[..] == m
      requires header + HEADER_WORDS <= |m| && CarNum(m, header) <= CAR_NUM && AllReadable(m, Cars(m), carSize, Mcu20)
      modifies this`rxEth, this`carNumErrs, this`carNumOk, carLenErrs, carSumErrs
      ensures var seen, n := Examined(m, Cars(m), carSize, Mcu20), |Cars(m)|;
        && carNumErrs == (if n == 0 then Inc(old(carNumErrs)) else old(carNumErrs))
        && carNumOk == (if n == 0 then old(carNumOk) else Inc(old(carNumOk)))
        && SlotCounted(old(carLenErrs[..]), carLenErrs[..], seen, n, LenError)
        && SlotCounted(old(carSumErrs[..]), carSumErrs[..], seen, n, SumError)
        && rxEth == CountEth(old(rxEth), seen, n)
        && queued == EnetQueue(EthCars(Cars(m), seen, n))
    {
      var cars := if mem[header + 1] % TWO_8 == 1 then car0 else car1;
      var n := mem[header + 1] / TWO_8 % TWO_8;
      assert m[header + 1] == mem[header + 1];
      cars := cars[..n];
      assert cars == Cars(m);
      CountTrain(n);
      var enetCars := ScanMcu20(mem, cars, m, Examined(m, cars, carSize, Mcu20));
      queued := QueueAll(enetCars);
    }

    /** The receiver of the management core: accepted Ethernet cars are collected, then queued. */
    method RecvMcu20(mem: array<word>) returns (r: int, queued: seq<Queued>)
      requires Valid() && mem != carLenErrs && mem != carSumErrs && Receivable(mem[..], Mcu20)
      modifies this, mem, carLenErrs, carSumErrs
      ensures r == (if HeaderOk(old(mem[..]), header) then 0 else -1)
      ensures r == -1 ==>
        && queued == [] && headerSumErr == Inc(old(headerSumErr))
        && mem[..] == old(mem[..]) && carLenErrs[..] == old(carLenErrs[..]) && carSumErrs[..] == old(carSumErrs[..])
        && rxEth == old(rxEth) && carNumOk == old(carNumOk) && carNumErrs == old(carNumErrs)
      ensures r == 0 ==>
        var m := Clamped(old(mem[..]), header);
        var cars := Cars(m);
        var seen := Examined(m, cars, carSize, Mcu20);
        var n := |cars|;
        && mem[..] == m && headerSumErr == old(headerSumErr)
        && carNumErrs == (if n == 0 then Inc(old(carNumErrs)) else old(carNumErrs))
        && carNumOk == (if n == 0 then old(carNumOk) else Inc(old(carNumOk)))
        && SlotCounted(old(carLenErrs[..]), carLenErrs[..], seen, n, LenError)
        && SlotCounted(old(carSumErrs[..]), carSumErrs[..], seen, n, SumError)
        && rxEth == CountEth(old(rxEth), seen, n)
        && queued == EnetQueue(EthCars(cars, seen, n))
      ensures rxGeth == old(rxGeth) && rxFt3 == old(rxFt3) && rxAurora == old(rxAurora)
      ensures headerSeen == (old(headerSeen) || r == 0)
    {
      queued := [];
      var ok := OpenTrain(mem);
      if !ok {
        return -1, queued;
      }
      headerSeen := true;
      queued := TakeMcu20(mem, Clamped(old(mem[..]), header));
      r := 0;
    }

    /** An accepted car is counted by type and passed to the handler of its type. */
    method HandleCar(v: Verdict, portType: byte, car: nat, handlers: set<byte>, before: seq<Delivery>)
      returns (delivered: seq<Delivery>)
      modifies this`rxFt3, this`rxGeth, this`rxAurora
      ensures var counts := old(TypeCounts(rxFt3, rxGeth, rxAurora));
        TypeCounts(rxFt3, rxGeth, rxAurora) == if v == Accepted then counts.Plus(portType) else counts
      ensures delivered ==
        before + if v == Accepted && Delivers(portType, handlers) then [Delivery(portType, car)] else []
    {
      delivered := before;
      if v == Accepted {
        CountType(portType);
        if Delivers(portType, handlers) {
          delivered := delivered + [Delivery(portType, car)];
        }
      }
    }

    /** The slot just examined extends the deliveries and the counts by one. */
    method HandleSlot(v: Verdict, portType: byte, cars: seq<nat>, i: nat, handlers: set<byte>,
                      ghost seen: seq<Seen>, ghost counts: TypeCounts, before: seq<Delivery>)
      returns (delivered: seq<Delivery>)
      requires i < |cars| && i < |seen| && seen[i] == Seen(v, portType)
      requires before == Delivered(cars, seen, i, handlers)
      requires TypeCounts(rxFt3, rxGeth, rxAurora) == CountTypes(counts, seen, i)
      modifies this`rxFt3, this`rxGeth, this`rxAurora
      ensures delivered == Delivered(cars, seen, i + 1, handlers)
      ensures TypeCounts(rxFt3, rxGeth, rxAurora) == CountTypes(counts, seen, i + 1)
    {
      CountTypesNext(counts, seen, i, v, portType);
      DeliveredNext(cars, seen, i, handlers, v, portType);
      delivered := HandleCar(v, portType, cars[i], handlers, before);
    }

    /** The other cores' loop: each accepted car goes to the handler of its type, if one is registered. */
    method ScanOther(mem: array<word>, cars: seq<nat>, handlers: set<byte>,
                     ghost m: seq<word>, ghost seen: seq<Seen>)
      returns (delivered: seq<Delivery>)
      requires Valid() && mem != carLenErrs && mem != carSumErrs && |cars| <= CAR_NUM && mem[..] == m
      requires AllReadable(m, cars, carSize, OtherCore) && seen == Examined(m, cars, carSize, OtherCore)
      modifies this`rxFt3, this`rxGeth, this`rxAurora, carLenErrs, carSumErrs
      ensures delivered == Delivered(cars, seen, |cars|, handlers)
      ensures TypeCounts(rxFt3, rxGeth, rxAurora) == CountTypes(old(TypeCounts(rxFt3, rxGeth, rxAurora)), seen, |cars|)
      ensures SlotCounted(old(carLenErrs[..]), carLenErrs[..], seen, |cars|, LenError)
      ensures SlotCounted(old(carSumErrs[..]), carSumErrs[..], seen, |cars|, SumError)
    {
      ghost var lenWas, sumWas := carLenErrs[..], carSumErrs[..];
      ghost var counts := TypeCounts(rxFt3, rxGeth, rxAurora);
      delivered := [];
      var i := 0;
      while i < |cars|
        invariant 0 <= i <= |cars| && mem[..] == m
        invariant SlotCounted(lenWas, carLenErrs[..], seen, i, LenError)
        invariant SlotCounted(sumWas, carSumErrs[..], seen, i, SumError)
        invariant delivered == Delivered(cars, seen, i, handlers)
        invariant TypeCounts(rxFt3, rxGeth, rxAurora) == CountTypes(counts, seen, i)
      {
        var v, portType := ExamineCar(mem, cars, i, OtherCore, m, seen, lenWas, sumWas);
        delivered := HandleSlot(v, portType, cars, i, handlers, seen, counts, delivered);
        i := i + 1;
      }
    }

    /** The receiver of the other cores. `handlers` holds the frame types with a registered handler. */
    method RecvOther(mem: array<word>, handlers: set<byte>) returns (r: int, delivered: seq<Delivery>)
      requires Valid() && mem != carLenErrs && mem != carSumErrs && Receivable(mem[..], OtherCore)
      modifies this, mem, carLenErrs, carSumErrs
      ensures r == (if HeaderOk(old(mem[..]), header) then 0 else -1)
      ensures r == -1 ==>
        && delivered == [] && headerSumErr == Inc(old(headerSumErr))
        && mem[..] == old(mem[..]) && carLenErrs[..] == old(carLenErrs[..]) && carSumErrs[..] == old(carSumErrs[..])
        && rxFt3 == old(rxFt3) && rxGeth == old(rxGeth) && rxAurora == old(rxAurora)
      ensures r == 0 ==>
        var m := Clamped(old(mem[..]), header);
        var cars := Cars(m);
        var seen := Examined(m, cars, carSize, OtherCore);
        var n := |cars|;
        && mem[..] == m && headerSumErr == old(headerSumErr)
        && SlotCounted(old(carLenErrs[..]), carLenErrs[..], seen, n, LenError)
        && SlotCounted(old(carSumErrs[..]), carSumErrs[..], seen, n, SumError)
        && TypeCounts(rxFt3, rxGeth, rxAurora) == CountTypes(old(TypeCounts(rxFt3, rxGeth, rxAurora)), seen, n)
        && delivered == Delivered(cars, seen, n, handlers)
      ensures rxEth == old(rxEth) && carNumOk == old(carNumOk) && carNumErrs == old(carNumErrs)
      ensures headerSeen == old(headerSeen)
    {
      delivered := [];
      var ok := OpenTrain(mem);
      if !ok {
        return -1, delivered;
      }
      var cars := if mem[header + 1] % TWO_8 == 1 then car0 else car1;
      var n := mem[header + 1] / TWO_8 % TWO_8;
      assert cars[..n] == Cars(mem[..]);
      delivered := ScanOther(mem, cars[..n], handlers, mem[..], Examined(mem[..], cars[..n], carSize, OtherCore));
      r := 0;
    }
  }

  /** FT3, GETH and AURORA frames go to their handler when there is one; redundancy frames always go to theirs. */
  predicate Delivers(portType: byte, handlers: set<byte>) {
    || portType == FRAME_TYPE_REDUNDANCY
    || (portType in {FRAME_TYPE_FT3, FRAME_TYPE_GETH, FRAME_TYPE_AURORA} && portType in handlers)
  }

  function Delivered(cars: seq<nat>, seen: seq<Seen>, n: nat, handlers: set<byte>): seq<Delivery>
    requires n <= |cars| && n <= |seen|
  {
    if n == 0 then []
    else if seen[n - 1].verdict == Accepted && Delivers(seen[n - 1].portType, handlers) then
      Delivered(cars, seen, n - 1, handlers) + [Delivery(seen[n - 1].portType, cars[n - 1])]
    else Delivered(cars, seen, n - 1, handlers)
  }

  lemma DeliveredNext(cars: seq<nat>, seen: seq<Seen>, n: nat, handlers: set<byte>, v: Verdict, t: byte)
    requires n < |cars| && n < |seen| && seen[n] == Seen(v, t)
    ensures Delivered(cars, seen, n + 1, handlers) ==
      Delivered(cars, seen, n, handlers) + if v == Accepted && Delivers(t, handlers) then [Delivery(t, cars[n])] else []
  {}

  function Bumped(counters: seq<word>, i: nat, hit: bool): seq<word>
    requires i < |counters|
  {
    if hit then counters[i := Inc(counters[i])] else counters
  }

  lemma SlotCountedNext(was: seq<word>, now: seq<word>, seen: seq<Seen>, n: nat, v: Verdict)
    requires SlotCounted(was, now, seen, n, v) && n < CAR_NUM && n < |seen|
    ensures SlotCounted(was, Bumped(now, n, seen[n].verdict == v), seen, n + 1, v)
  {}

  /** The deliveries are the accepted cars of the deliverable types, in slot order. */
  lemma {:induction false} DeliveredExact(cars: seq<nat>, seen: seq<Seen>, n: nat, handlers: set<byte>)
    requires n <= |cars| && n <= |seen|
    ensures var types := {0x22} + handlers * {0x01, 0x03, 0x05};
      var s := Slots(seen, n, types);
      (forall k :: 0 <= k < |s| ==> s[k] < n)
      && Delivered(cars, seen, n, handlers) ==
           seq(|s|, k requires 0 <= k < |s| => Delivery(seen[s[k]].portType, cars[s[k]]))
  {
    if n > 0 {
      DeliveredExact(cars, seen, n - 1, handlers);
      DeliversIff(seen[n - 1].portType, handlers);
    }
  }

  /** Which types reach a handler: redundancy frames always, three others if one is registered. */
  lemma DeliversIff(t: byte, handlers: set<byte>)
    ensures Delivers(t, handlers) <==> t in {0x22} + handlers * {0x01, 0x03, 0x05}
  {}

  // ---------------------------------------------------------------- what the checksums detect

  /** A header differing from an accepted one in exactly one of its 32 words is rejected. */
  lemma HeaderErrorDetected(mem: seq<word>, header: nat, i: nat, v: word)
    requires header + HEADER_WORDS <= |mem| && HeaderOk(mem, header)
    requires i < HEADER_WORDS && v != mem[header + i]
    ensures !HeaderOk(mem[header + i := v], header)
  {
    var frame := mem[header..header + HEADER_WORDS];
    OneWordErrorDetected(frame, i, v);
    assert mem[header + i := v][header..header + HEADER_WORDS] == frame[i := v];
  }

  /** A car differing from an accepted one in one summed or check word, its length kept, is no longer accepted. */
  lemma CarErrorDetected(mem: seq<word>, car: nat, size: half, build: Build, i: nat, v: word)
    requires Readable(mem, car, size, build) && Classify(mem, car, size, build) == Accepted
    requires i <= SumIndex(build, PayloadLen(mem, car)) && v != mem[car + i]
    requires PayloadLen(mem[car + i := v], car) == PayloadLen(mem, car)
    ensures Readable(mem[car + i := v], car, size, build)
    ensures Classify(mem[car + i := v], car, size, build) == SumError
  {
    var end := car + SumIndex(build, PayloadLen(mem, car)) + 1;
    OneWordErrorDetected(mem[car..end], i, v);
    assert mem[car + i := v][car..end] == mem[car..end][i := v];
  }

  /**
   Receiving clamps the car count in the header without redoing its sum. The same image can
   therefore be received a second time exactly when its count was at most 16.
   */
  lemma ReceivableAgainIff(mem: seq<word>, header: nat)
    requires header + HEADER_WORDS <= |mem| && HeaderOk(mem, header)
    ensures HeaderOk(Clamped(mem, header), header) <==> CarNum(mem, header) <= CAR_NUM
  {
    var w := mem[header + 1];
    if CarNum(mem, header) > CAR_NUM {
      HeaderErrorDetected(mem, header, 1, w - CarNum(mem, header) * TWO_8 + CAR_NUM * TWO_8);
    } else if CarNum(mem, header) == CAR_NUM {
      assert Clamped(mem, header) == mem;
    }
  }

  /** The clamped count is the smaller of the announced count and 16. */
  lemma ClampedCount(mem: seq<word>, header: nat)
    requires header + HEADER_WORDS <= |mem|
    ensures CarNum(Clamped(mem, header), header) ==
            if CarNum(mem, header) < CAR_NUM then CarNum(mem, header) else CAR_NUM
    ensures CarId(Clamped(mem, header), header) == CarId(mem, header)
  {
    ReplaceSecondByte(mem[header + 1], CAR_NUM);
  }

  lemma ReplaceSecondByte(w: word, b: byte)
    ensures var r := w - (w / TWO_8 % TWO_8) * TWO_8 + b * TWO_8;
      0 <= r < TWO_32 && r / TWO_8 % TWO_8 == b && r % TWO_8 == w % TWO_8
  {
    var upper, low := w / TWO_8, w % TWO_8;
    var high, was := upper / TWO_8, upper % TWO_8;
    assert w == upper * TWO_8 + low && upper == high * TWO_8 + was;
    var r := (high * TWO_8 + b) * TWO_8 + low;
    assert r / TWO_8 == high * TWO_8 + b;
  }

  /** A published transmit header is what the receiver's test accepts, wherever it lies in memory. */
  lemma PublishedFrameAccepted(mem: seq<word>, header: nat, s: TrainTransmit.TxState)
    requires s.Valid() && header + HEADER_WORDS <= |mem|
    requires mem[header..header + HEADER_WORDS] == TrainTransmit.PublishedHeader(s).Frame()
    ensures HeaderOk(mem, header)
  {
    TrainTransmit.PublishedHeaderPasses(s);
  }

  // ---------------------------------------------------------------- in bytes of the images

  /** The fields read are those of the packed structures, by their byte offsets. */
  lemma HeaderFields(mem: seq<word>, header: nat)
    requires header + 32 <= |mem|
    ensures CarId(mem, header) == ByteOf(mem, 4 * header + 4)
    ensures CarNum(mem, header) == ByteOf(mem, 4 * header + 5)
  {
    BytesOfWord(mem, header + 1);
  }

  lemma CarFields(mem: seq<word>, car: nat)
    requires car + 2 < |mem|
    ensures PortType(mem, car) == ByteOf(mem, 4 * car + 6)
    ensures PayloadLen(mem, car) == HalfOf(mem, 4 * car + 8)
  {
    BytesOfWord(mem, car + 1);
    BytesOfWord(mem, car + 2);
  }

  /** The header test, over the 128 bytes of the header. */
  lemma HeaderOkIff(mem: seq<word>, header: nat)
    requires header + 32 <= |mem|
    ensures HeaderOk(mem, header) <==> Sum(mem[header..header + 31]) % 0x1_0000_0000 == mem[header + 31]
  {
    SumsToLastIff(mem, header, 31);
  }

  /** Receiving changes no byte but the count, and that only to cut it to 16. */
  lemma ClampedBytes(mem: seq<word>, header: nat, k: nat)
    requires header + 32 <= |mem| && k < 4 * |mem|
    ensures ByteOf(Clamped(mem, header), k) ==
      if k == 4 * header + 5 && ByteOf(mem, k) >= 16 then 16 else ByteOf(mem, k)
  {
    HeaderFields(mem, header);
    var i := header + 1;
    if k / 4 == i && CarNum(mem, header) >= CAR_NUM {
      assert k == 4 * i || k == 4 * i + 1 || k == 4 * i + 2 || k == 4 * i + 3;
      BytesOfWord(mem, i);
      BytesOfWord(Clamped(mem, header), i);
      ReplaceSecondByte(mem[i], CAR_NUM);
      ReplaceKeepsUpper(mem[i], CAR_NUM);
    }
  }

  lemma ReplaceKeepsUpper(w: word, b: byte)
    ensures var r := w - (w / TWO_8 % TWO_8) * TWO_8 + b * TWO_8;
      0 <= r < TWO_32 && r / TWO_16 == w / TWO_16
  {
    ReplaceSecondByte(w, b);
    var upper, low := w / TWO_8, w % TWO_8;
    var high, was := upper / TWO_8, upper % TWO_8;
    assert w == high * TWO_16 + was * TWO_8 + low;
    ModUnique(w, TWO_16, high, was * TWO_8 + low);
    ModUnique(high * TWO_16 + b * TWO_8 + low, TWO_16, high, b * TWO_8 + low);
  }

  /**
   The verdict on a car from its bytes: a length of 0 or of the car size and more is a length error;
   otherwise the words up to the end of the car, padded to 16 bytes, must sum to the last of them.
   */
  lemma VerdictByBytes(mem: seq<word>, car: nat, size: half, build: Build)
    requires Readable(mem, car, size, build)
    ensures var len := HalfOf(mem, 4 * car + 8);
      var last := (len + 51) / 16 * 4 - 1;
      && (Classify(mem, car, size, build) == LenError <==> len == 0 || len >= size)
      && (0 < len < size && len < 65485 ==>
           && car + last < |mem|
           && Classify(mem, car, size, build) ==
                if Sum(mem[car..car + last]) % 0x1_0000_0000 == mem[car + last] then Accepted else SumError)
  {
    CarFields(mem, car);
    if LenOk(mem, car, size) && PayloadLen(mem, car) < 65485 {
      VerdictBySum(mem, car, size, build, PayloadLen(mem, car));
    }
  }

  lemma VerdictBySum(mem: seq<word>, car: nat, size: half, build: Build, len: half)
    requires Readable(mem, car, size, build) && LenOk(mem, car, size) && PayloadLen(mem, car) == len < 65485
    ensures var last := (len + 51) / 16 * 4 - 1;
      && last >= 0 && car + last < |mem|
      && Classify(mem, car, size, build) ==
           if Sum(mem[car..car + last]) % 0x1_0000_0000 == mem[car + last] then Accepted else SumError
  {
    LastWord(build, len);
    SumsToLastIff(mem, car, SumIndex(build, len));
  }

  lemma LastWord(build: Build, len: half)
    requires len < 65485
    ensures SumIndex(build, len) == (len + 51) / 16 * 4 - 1
  {
    SumIndexEndsCarIff(build, len);
    EndIsRounded(4 * (SumIndex(build, len) + 1), len);
  }

  lemma SumsToLastIff(mem: seq<word>, car: nat, n: nat)
    requires car + n < |mem|
    ensures SumsToLast(mem[car..car + n + 1]) <==> Sum(mem[car..car + n]) % 0x1_0000_0000 == mem[car + n]
  {
    assert mem[car..car + n + 1][..n] == mem[car..car + n];
  }

  lemma EndIsRounded(end: nat, len: nat)
    requires EndsPaddedCar(end, len)
    ensures end == (len + 51) / 16 * 16
  {
    var q := end / 16;
    assert end == 16 * q;
  }

  /** Only the error counter of a slot's own verdict moves, by one. */
  lemma ErrorsBySlot(was: seq<word>, now: seq<word>, seen: seq<Seen>, n: nat, v: Verdict, i: nat)
    requires SlotCounted(was, now, seen, n, v) && i < 16
    ensures now[i] as int == (was[i] as int + if i < n && seen[i].verdict == v then 1 else 0) % 0x1_0000_0000
  {
    IncWraps(was[i]);
  }

  /** The tables of a receiver are those the allocator placed at byte `at`, in words. */
  predicate PlacedAt(rx: TrainRx, t: RxTrain, at: nat) {
    && t.WellFormed() && |rx.car0| == |rx.car1| == CAR_NUM
    && 4 * rx.header == PlaceRx(t, at).header && rx.carSize == t.size
    && forall j :: 0 <= j < t.num ==>
         4 * rx.car0[j] == PlaceRx(t, at).car0[j] && 4 * rx.car1[j] == PlaceRx(t, at).car1[j]
  }

  /** The byte at which car `j` of a receive train starts, in the bank that car id `id` names. */
  function CarByte(t: RxTrain, at: nat, id: byte, j: nat): int {
    at + 128 + (if id == 1 then 0 else t.num * t.size) + t.size * j
  }

  /** Where the receiver takes car `j` from, by the car id in byte 4 of the header: id 1 is the first bank. */
  lemma CarsPlaced(rx: TrainRx, m: seq<word>, t: RxTrain, at: nat, j: nat)
    requires PlacedAt(rx, t, at) && t.num * t.size != 0 && at + t.Footprint() < TWO_64
    requires rx.header + 32 <= |m| && CarNum(m, rx.header) <= CAR_NUM
    requires j < ByteOf(m, 4 * rx.header + 5) && j < t.num
    ensures |rx.Cars(m)| == ByteOf(m, 4 * rx.header + 5)
    ensures ByteOf(m, 4 * rx.header + 4) == 1 ==> 4 * rx.Cars(m)[j] == at + 128 + t.size * j
    ensures ByteOf(m, 4 * rx.header + 4) != 1 ==> 4 * rx.Cars(m)[j] == at + 128 + t.num * t.size + t.size * j
    ensures 4 * rx.Cars(m)[j] == CarByte(t, at, ByteOf(m, 4 * rx.header + 4), j)
  {
    HeaderFields(m, rx.header);
    BankChosen(rx, m, j);
    RxCarAddresses(t, at, j);
  }

  lemma BankChosen(rx: TrainRx, m: seq<word>, j: nat)
    requires |rx.car0| == |rx.car1| == CAR_NUM && rx.header + 32 <= |m|
    requires j < CarNum(m, rx.header) <= CAR_NUM
    ensures |rx.Cars(m)| == CarNum(m, rx.header)
    ensures rx.Cars(m)[j] == if CarId(m, rx.header) == 1 then rx.car0[j] else rx.car1[j]
  {}

  /** The slots in `s` are exactly the accepted cars with one of the port types, in order. */
  ghost predicate PicksByType(m: seq<word>, cars: seq<nat>, size: half, build: Build, s: seq<nat>, types: set<byte>)
    requires AllReadable(m, cars, size, build)
  {
    && (forall k :: 0 <= k < |s| ==> s[k] < |cars|)
    && (forall k, l :: 0 <= k < l < |s| ==> s[k] < s[l])
    && (forall i :: 0 <= i < |cars| ==>
         (i in s <==> Classify(m, cars[i], size, build) == Accepted && ByteOf(m, 4 * cars[i] + 6) in types))
  }

  lemma PortTypes(m: seq<word>, cars: seq<nat>, size: half, build: Build)
    requires AllReadable(m, cars, size, build)
    ensures forall i :: 0 <= i < |cars| ==>
      cars[i] + 2 < |m| && Examined(m, cars, size, build)[i].portType == ByteOf(m, 4 * cars[i] + 6)
  {
    forall i | 0 <= i < |cars|
      ensures cars[i] + 2 < |m| && PortType(m, cars[i]) == ByteOf(m, 4 * cars[i] + 6)
    {
      assert Readable(m, cars[i], size, build);
      CarFields(m, cars[i]);
    }
  }

  lemma SlotsByType(m: seq<word>, cars: seq<nat>, size: half, build: Build, types: set<byte>)
    requires AllReadable(m, cars, size, build)
    ensures PicksByType(m, cars, size, build, Slots(Examined(m, cars, size, build), |cars|, types), types)
  {
    SlotsExact(Examined(m, cars, size, build), |cars|, types);
    PortTypes(m, cars, size, build);
  }

  /**
   What the management core queues for an image: the accepted cars whose port type byte is 0x02, each once, in
   slot order, with its rank and their number. `s` tells from which slots.
   */
  lemma QueuedExactly(m: seq<word>, cars: seq<nat>, size: half) returns (s: seq<nat>)
    requires AllReadable(m, cars, size, Mcu20)
    ensures PicksByType(m, cars, size, Mcu20, s, {0x02})
    ensures var q := EnetQueue(EthCars(cars, Examined(m, cars, size, Mcu20), |cars|));
      |q| == |s| && forall k :: 0 <= k < |q| ==> q[k].car == cars[s[k]] && q[k].rank == k && q[k].total == |s|
  {
    var seen := Examined(m, cars, size, Mcu20);
    s := Slots(seen, |cars|, {0x02});
    SlotsByType(m, cars, size, Mcu20, {0x02});
    EthCarsExact(cars, seen, |cars|);
  }

  /**
   What the other cores deliver for an image: the accepted cars of type 0x22, and those of types 0x01, 0x03 and
   0x05 that have a handler, each once, in slot order, to the handler of their own type.
   */
  lemma DeliveredExactly(m: seq<word>, cars: seq<nat>, size: half, handlers: set<byte>) returns (s: seq<nat>)
    requires AllReadable(m, cars, size, OtherCore)
    ensures PicksByType(m, cars, size, OtherCore, s, {0x22} + handlers * {0x01, 0x03, 0x05})
    ensures var d := Delivered(cars, Examined(m, cars, size, OtherCore), |cars|, handlers);
      |d| == |s| && forall k :: 0 <= k < |d| ==>
        d[k].car == cars[s[k]] && d[k].portType == ByteOf(m, 4 * cars[s[k]] + 6)
  {
    var seen := Examined(m, cars, size, OtherCore);
    var types := {0x22} + handlers * {0x01, 0x03, 0x05};
    s := Slots(seen, |cars|, types);
    SlotsByType(m, cars, size, OtherCore, types);
    DeliveredExact(cars, seen, |cars|, handlers);
    PortTypes(m, cars, size, OtherCore);
  }

  /** All cars a placed receiver looks at lie where the allocator put them, in the bank the header names. */
  lemma CarsWhere(rx: TrainRx, m: seq<word>, t: RxTrain, at: nat)
    requires PlacedAt(rx, t, at) && t.num * t.size != 0 && at + t.Footprint() < TWO_64
    requires rx.header + 32 <= |m| && CarNum(m, rx.header) <= CAR_NUM && CarNum(m, rx.header) <= t.num
    ensures |rx.Cars(m)| == ByteOf(m, 4 * rx.header + 5)
    ensures forall j :: 0 <= j < |rx.Cars(m)| ==>
      4 * rx.Cars(m)[j] == CarByte(t, at, ByteOf(m, 4 * rx.header + 4), j)
  {
    HeaderFields(m, rx.header);
    forall j | 0 <= j < |rx.Cars(m)|
      ensures 4 * rx.Cars(m)[j] == CarByte(t, at, ByteOf(m, 4 * rx.header + 4), j)
    {
      CarsPlaced(rx, m, t, at, j);
    }
  }

  /** Entry `k` of the queue is the car of slot `s[k]`, where the allocator put it. */
  predicate QueueAt(q: seq<Queued>, s: seq<nat>, t: RxTrain, at: nat, id: byte) {
    |q| == |s| && forall k :: 0 <= k < |q| ==>
      4 * q[k].car == CarByte(t, at, id, s[k]) && q[k].rank == k && q[k].total == |q|
  }

  predicate DeliveriesAt(d: seq<Delivery>, s: seq<nat>, t: RxTrain, at: nat, id: byte) {
    |d| == |s| && forall k :: 0 <= k < |d| ==> 4 * d[k].car == CarByte(t, at, id, s[k])
  }

  lemma QueueLocated(cars: seq<nat>, s: seq<nat>, q: seq<Queued>, t: RxTrain, at: nat, id: byte)
    requires forall k :: 0 <= k < |s| ==> s[k] < |cars|
    requires |q| == |s| && forall k :: 0 <= k < |q| ==>
      q[k].car == cars[s[k]] && q[k].rank == k && q[k].total == |s|
    requires forall j :: 0 <= j < |cars| ==> 4 * cars[j] == CarByte(t, at, id, j)
    ensures QueueAt(q, s, t, at, id)
  {}

  lemma DeliveriesLocated(cars: seq<nat>, s: seq<nat>, d: seq<Delivery>, t: RxTrain, at: nat, id: byte)
    requires forall k :: 0 <= k < |s| ==> s[k] < |cars|
    requires |d| == |s| && forall k :: 0 <= k < |d| ==> d[k].car == cars[s[k]]
    requires forall j :: 0 <= j < |cars| ==> 4 * cars[j] == CarByte(t, at, id, j)
    ensures DeliveriesAt(d, s, t, at, id)
  {}

  /** The image a placed receiver goes by: its header clamped, its cars within the table, and the id as received. */
  lemma PlacedImage(rx: TrainRx, was: seq<word>, t: RxTrain, at: nat)
    requires PlacedAt(rx, t, at) && t.num * t.size != 0 && at + t.Footprint() < TWO_64
    requires rx.header + 32 <= |was| && CarNum(was, rx.header) <= t.num
    ensures var m := Clamped(was, rx.header);
      && CarNum(m, rx.header) <= CAR_NUM
      && forall j :: 0 <= j < |rx.Cars(m)| ==>
           4 * rx.Cars(m)[j] == CarByte(t, at, ByteOf(was, 4 * rx.header + 4), j)
  {
    var m := Clamped(was, rx.header);
    ClampedCount(was, rx.header);
    HeaderFields(was, rx.header);
    HeaderFields(m, rx.header);
    CarsWhere(rx, m, t, at);
  }

  lemma QueuedWhere(rx: TrainRx, was: seq<word>, m: seq<word>, cars: seq<nat>, t: RxTrain, at: nat, q: seq<Queued>)
    returns (s: seq<nat>)
    requires PlacedAt(rx, t, at) && t.num * t.size != 0 && at + t.Footprint() < TWO_64
    requires rx.header + 32 <= |was| && CarNum(was, rx.header) <= t.num && m == Clamped(was, rx.header)
    requires CarNum(m, rx.header) <= CAR_NUM && cars == rx.Cars(m) && AllReadable(m, cars, rx.carSize, Mcu20)
    requires q == EnetQueue(EthCars(cars, Examined(m, cars, rx.carSize, Mcu20), |cars|))
    ensures PicksByType(m, cars, rx.carSize, Mcu20, s, {0x02})
    ensures QueueAt(q, s, t, at, ByteOf(was, 4 * rx.header + 4))
  {
    s := QueuedExactly(m, cars, rx.carSize);
    PlacedImage(rx, was, t, at);
    QueueLocated(cars, s, q, t, at, ByteOf(was, 4 * rx.header + 4));
  }

  lemma DeliveredWhere(rx: TrainRx, was: seq<word>, m: seq<word>, cars: seq<nat>, t: RxTrain, at: nat,
                       handlers: set<byte>, d: seq<Delivery>)
    returns (s: seq<nat>)
    requires PlacedAt(rx, t, at) && t.num * t.size != 0 && at + t.Footprint() < TWO_64
    requires rx.header + 32 <= |was| && CarNum(was, rx.header) <= t.num && m == Clamped(was, rx.header)
    requires CarNum(m, rx.header) <= CAR_NUM && cars == rx.Cars(m) && AllReadable(m, cars, rx.carSize, OtherCore)
    requires d == Delivered(cars, Examined(m, cars, rx.carSize, OtherCore), |cars|, handlers)
    ensures PicksByType(m, cars, rx.carSize, OtherCore, s, {0x22} + handlers * {0x01, 0x03, 0x05})
    ensures DeliveriesAt(d, s, t, at, ByteOf(was, 4 * rx.header + 4))
  {
    s := DeliveredExactly(m, cars, rx.carSize, handlers);
    PlacedImage(rx, was, t, at);
    DeliveriesLocated(cars, s, d, t, at, ByteOf(was, 4 * rx.header + 4));
  }

  /**
   On the receiver itself: a placed train is received, and each car queued is where the allocator put the car
   of its slot, in the bank that byte 4 of the received header names.
   */
  method RecvPlaced(rx: TrainRx, mem: array<word>, t: RxTrain, at: nat)
    returns (r: int, queued: seq<Queued>, ghost slots: seq<nat>)
    requires rx.Valid() && mem != rx.carLenErrs && mem != rx.carSumErrs && rx.Receivable(mem[..], Mcu20)
    requires PlacedAt(rx, t, at) && t.num * t.size != 0 && at + t.Footprint() < TWO_64
    requires CarNum(mem[..], rx.header) <= t.num
    modifies rx, mem, rx.carLenErrs, rx.carSumErrs
    ensures r == 0 ==> QueueAt(queued, slots, t, at, old(ByteOf(mem[..], 4 * rx.header + 4)))
  {
    ghost var was := mem[..];
    r, queued := rx.RecvMcu20(mem);
    slots := [];
    if r == 0 {
      ghost var m := Clamped(was, rx.header);
      slots := QueuedWhere(rx, was, m, rx.Cars(m), t, at, queued);
    }
  }

  /** The same on the other cores: each car delivered is where the allocator put the car of its slot. */
  method RecvOtherPlaced(rx: TrainRx, mem: array<word>, handlers: set<byte>, t: RxTrain, at: nat)
    returns (r: int, delivered: seq<Delivery>, ghost slots: seq<nat>)
    requires rx.Valid() && mem != rx.carLenErrs && mem != rx.carSumErrs && rx.Receivable(mem[..], OtherCore)
    requires PlacedAt(rx, t, at) && t.num * t.size != 0 && at + t.Footprint() < TWO_64
    requires CarNum(mem[..], rx.header) <= t.num
    modifies rx, mem, rx.carLenErrs, rx.carSumErrs
    ensures r == 0 ==> DeliveriesAt(delivered, slots, t, at, old(ByteOf(mem[..], 4 * rx.header + 4)))
  {
    ghost var was := mem[..];
    r, delivered := rx.RecvOther(mem, handlers);
    slots := [];
    if r == 0 {
      ghost var m := Clamped(was, rx.header);
      slots := DeliveredWhere(rx, was, m, rx.Cars(m), t, at, handlers, delivered);
    }
  }
}
