/**
 The two bump allocators that lay the train headers and the two banks of cars out in the
 inbound PCIe window: one fills the RAM pointers of the train tables, the other the PCIe
 addresses sent to the FPGA.
 */
module TrainLayout {
  import opened Words

  const TRAIN_HEADER_LEN := 128
  const CAR_LEN_S: half := 128
  const CAR_LEN_B: half := 2048
  const CAR_NUM := 16

  /** The part of a CPU-to-FPGA train that the allocator reads and fills. Pointers are addresses, 0 is NULL. */
  datatype TxTrain = TxTrain(
    header: nat,
    s0: seq<nat>, s1: seq<nat>,
    b0: seq<nat>, b1: seq<nat>,
    sizeS: half, sizeB: half,
    numS: byte, numB: byte)
  {
    function LenS(): nat { numS * sizeS }

    function LenB(): nat { numB * sizeB }

    predicate Empty() { LenS() == 0 && LenB() == 0 }

    /** Bytes the train occupies: its header and two banks of each kind of car. */
    function Footprint(): nat {
      if Empty() then 0 else TRAIN_HEADER_LEN + 2 * LenS() + 2 * LenB()
    }

    predicate WellFormed() {
      && numS <= CAR_NUM && numB <= CAR_NUM
      && |s0| == |s1| == |b0| == |b1| == CAR_NUM
    }
  }

  /** The part of an FPGA-to-CPU train that the allocator reads and fills. */
  datatype RxTrain = RxTrain(header: nat, car0: seq<nat>, car1: seq<nat>, size: half, num: byte) {
    function Len(): nat { size * num }

    function Footprint(): nat {
      if Len() == 0 then 0 else TRAIN_HEADER_LEN + 2 * Len()
    }

    predicate WellFormed() { num <= CAR_NUM && |car0| == |car1| == CAR_NUM }
  }

  /** What the FPGA is told about one train: PCIe addresses, 0 for a bank that does not exist. */
  datatype CarInfo = CarInfo(irqNum: byte, time: half, header: word, s0: word, s1: word, b0: word, b1: word)

  /** `at` lists where the first `n` footprints start, one after another from `base`, and where the last ends. */
  ghost predicate TxStarts(table: seq<TxTrain>, n: nat, base: nat, at: seq<nat>) {
    && |at| == n + 1 && n <= |table| && at[0] == base
    && forall i {:trigger at[i + 1]} :: 0 <= i < n ==> at[i + 1] == at[i] + table[i].Footprint()
  }

  ghost predicate RxStarts(table: seq<RxTrain>, n: nat, base: nat, at: seq<nat>) {
    && |at| == n + 1 && n <= |table| && at[0] == base
    && forall i {:trigger at[i + 1]} :: 0 <= i < n ==> at[i + 1] == at[i] + table[i].Footprint()
  }

  /** A pointer table whose first `n` entries point at cars of `size` bytes, one after another from `at`. */
  function Filled(was: seq<nat>, n: nat, at: nat, size: nat): seq<nat> {
    seq(|was|, j requires 0 <= j < |was| => if j < n then (at + size * j) % TWO_64 else was[j])
  }

  /** The train with its pointers set for a footprint starting at byte `at`. */
  function PlaceTx(t: TxTrain, at: nat): TxTrain {
    if t.Empty() then t
    else
      var s := at + TRAIN_HEADER_LEN;
      var b := s + 2 * t.LenS();
      t.(header := at % TWO_64,
         s0 := Filled(t.s0, t.numS, s, t.sizeS),
         s1 := Filled(t.s1, t.numS, s + t.LenS(), t.sizeS),
         b0 := Filled(t.b0, t.numB, b, t.sizeB),
         b1 := Filled(t.b1, t.numB, b + t.LenB(), t.sizeB))
  }

  function PlaceRx(t: RxTrain, at: nat): RxTrain {
    if t.Len() == 0 then t
    else
      var c := at + TRAIN_HEADER_LEN;
      t.(header := at % TWO_64,
         car0 := Filled(t.car0, t.num, c, t.size),
         car1 := Filled(t.car1, t.num, c + t.Len(), t.size))
  }

  /** `now` is the table `was` with its first `n` trains placed one after another from `base`. */
  ghost predicate TxPlaced(was: seq<TxTrain>, now: seq<TxTrain>, at: seq<nat>) {
    var n := |at| - 1;
    && 0 <= n <= |was| == |now|
    && (forall i {:trigger now[i]} :: 0 <= i < n ==> now[i] == PlaceTx(was[i], at[i]))
    && (forall i {:trigger now[i]} :: n <= i < |now| ==> now[i] == was[i])
  }

  ghost predicate RxPlaced(was: seq<RxTrain>, now: seq<RxTrain>, at: seq<nat>) {
    var n := |at| - 1;
    && 0 <= n <= |was| == |now|
    && (forall i {:trigger now[i]} :: 0 <= i < n ==> now[i] == PlaceRx(was[i], at[i]))
    && (forall i {:trigger now[i]} :: n <= i < |now| ==> now[i] == was[i])
  }

  /** The addresses the FPGA gets for a footprint starting at byte `at`. */
  function TxInfo(t: TxTrain, info: CarInfo, at: nat): CarInfo {
    if t.Empty() then info
    else
      var s := at + TRAIN_HEADER_LEN;
      var b := s + 2 * t.LenS();
      info.(header := at % TWO_32,
            s0 := if t.numS == 0 then 0 else s % TWO_32,
            s1 := if t.numS == 0 then 0 else (s + t.LenS()) % TWO_32,
            b0 := if t.numB == 0 then 0 else b % TWO_32,
            b1 := if t.numB == 0 then 0 else (b + t.LenB()) % TWO_32)
  }

  function RxInfo(t: RxTrain, info: CarInfo, at: nat): CarInfo {
    if t.Len() == 0 then info
    else
      var bank0, bank1 := (at + TRAIN_HEADER_LEN) % TWO_32, (at + TRAIN_HEADER_LEN + t.Len()) % TWO_32;
      var big := t.size == CAR_LEN_B;
      info.(header := at % TWO_32,
            s0 := if big then 0 else bank0, s1 := if big then 0 else bank1,
            b0 := if big then bank0 else 0, b1 := if big then bank1 else 0)
  }

  /** `now` is the address list `was` with its first `n` entries filled in for `table`. */
  ghost predicate TxTold(table: seq<TxTrain>, was: seq<CarInfo>, now: seq<CarInfo>, at: seq<nat>) {
    var n := |at| - 1;
    && 0 <= n <= |table| && n <= |was| == |now|
    && (forall i {:trigger now[i]} :: 0 <= i < n ==> now[i] == TxInfo(table[i], was[i], at[i]))
    && (forall i {:trigger now[i]} :: n <= i < |now| ==> now[i] == was[i])
  }

  ghost predicate RxTold(table: seq<RxTrain>, was: seq<CarInfo>, now: seq<CarInfo>, at: seq<nat>) {
    var n := |at| - 1;
    && 0 <= n <= |table| && n <= |was| == |now|
    && (forall i {:trigger now[i]} :: 0 <= i < n ==> now[i] == RxInfo(table[i], was[i], at[i]))
    && (forall i {:trigger now[i]} :: n <= i < |now| ==> now[i] == was[i])
  }

  // ---------------------------------------------------------------- the four allocators

  /** 64-bit address addition; `exact` is the address before any wrap. */
  function Add64(a: dword, n: nat, ghost exact: nat): (sum: dword)
    requires a == exact % TWO_64
    ensures sum == (exact + n) % TWO_64
  {
    Wrap64Add(exact, n);
    (a + n) % TWO_64
  }

  /** 32-bit address addition. */
  function Add32(a: word, n: nat, ghost exact: nat): (sum: word)
    requires a == exact % TWO_32
    ensures sum == (exact + n) % TWO_32
  {
    Wrap32Add(exact, n);
    (a + n) % TWO_32
  }

  /** The inner loop of the RAM allocators: the car pointers of both banks. */
  method FillBanks(cars0: seq<nat>, cars1: seq<nat>, num: byte, size: half,
                   base1: dword, base2: dword, ghost at1: nat, ghost at2: nat)
    returns (p0: seq<nat>, p1: seq<nat>)
    requires num <= |cars0| == |cars1|
    requires base1 == at1 % TWO_64 && base2 == at2 % TWO_64
    ensures p0 == Filled(cars0, num, at1, size) && p1 == Filled(cars1, num, at2, size)
  {
    p0, p1 := cars0, cars1;
    var j := 0;
    while j < num
      invariant 0 <= j <= num
      invariant p0 == Filled(cars0, j, at1, size) && p1 == Filled(cars1, j, at2, size)
    {
      p0 := p0[j := Add64(base1, size * j, at1)];
      p1 := p1[j := Add64(base2, size * j, at2)];
      j := j + 1;
    }
  }

  /** The body of the TX loop for one non-empty train, in RAM pointers. */
  method TxRamAddrTrain(t: TxTrain, ramAddr: dword, ghost at: nat) returns (placed: TxTrain, next: dword)
    requires t.WellFormed() && !t.Empty() && ramAddr == at % TWO_64
    ensures placed == PlaceTx(t, at) && next == (at + t.Footprint()) % TWO_64
  {
    var scarLen, bcarLen := t.LenS(), t.LenB();
    ghost var s := at + TRAIN_HEADER_LEN;
    ghost var end := at;
    var headerLen := TRAIN_HEADER_LEN;
    placed, next := t.(header := ramAddr), ramAddr;
    if t.numS != 0 {
      headerLen := 0;
      var p0, p1 := FillBanks(t.s0, t.s1, t.numS, t.sizeS,
                              Add64(ramAddr, TRAIN_HEADER_LEN, at), Add64(ramAddr, TRAIN_HEADER_LEN + scarLen, at),
                              s, s + scarLen);
      placed := placed.(s0 := p0, s1 := p1);
      end, next := at + TRAIN_HEADER_LEN + scarLen * 2, Add64(ramAddr, TRAIN_HEADER_LEN + scarLen * 2, at);
    }
    assert placed.s0 == Filled(t.s0, t.numS, s, t.sizeS) && placed.s1 == Filled(t.s1, t.numS, s + scarLen, t.sizeS);
    ghost var b := s + 2 * scarLen;
    assert end + headerLen == b;
    if t.numB != 0 {
      var p0, p1 := FillBanks(t.b0, t.b1, t.numB, t.sizeB,
                              Add64(next, headerLen, end), Add64(next, headerLen + bcarLen, end),
                              b, b + bcarLen);
      placed := placed.(b0 := p0, b1 := p1);
      end, next := end + headerLen + bcarLen * 2, Add64(next, headerLen + bcarLen * 2, end);
    }
    assert placed.b0 == Filled(t.b0, t.numB, b, t.sizeB) && placed.b1 == Filled(t.b1, t.numB, b + bcarLen, t.sizeB);
  }

  /** The RAM pointers of every train of a CPU-to-FPGA table; the address after the last one is returned. */
  method TxRamAddrInit(table: array?<TxTrain>, trainNum: nat, ramBase: dword)
    returns (end: dword, ghost at: seq<nat>)
    requires table != null ==> trainNum <= table.Length && forall i :: 0 <= i < trainNum ==> table[i].WellFormed()
    modifies table
    ensures table == null ==> end == 0
    ensures table != null ==>
      && TxStarts(old(table[..]), trainNum, ramBase, at) && end == at[trainNum] % TWO_64
      && TxPlaced(old(table[..]), table[..], at)
  {
    if table == null {
      return 0, [];
    }
    ghost var was := table[..];
    end, at := ramBase, [ramBase as nat];
    var i := 0;
    while i < trainNum
      invariant 0 <= i <= trainNum
      invariant TxStarts(was, i, ramBase, at) && end == at[i] % TWO_64
      invariant TxPlaced(was, table[..], at)
    {
      if !table[i].Empty() {
        var placed, next := TxRamAddrTrain(table[i], end, at[i]);
        table[i] := placed;
        end := next;
      }
      at := at + [at[i] + was[i].Footprint()];
      i := i + 1;
    }
  }

  /** The PCIe addresses of every train of a CPU-to-FPGA table. */
  method TxPcieAddrInit(info: array?<CarInfo>, table: array?<TxTrain>, trainNum: nat, pcieBase: word)
    returns (end: word, ghost at: seq<nat>)
    requires info != null && table != null ==> trainNum <= table.Length && trainNum <= info.Length
    modifies info
    ensures info == null || table == null ==> end == 0
    ensures info != null && table == null ==> info[..] == old(info[..])
    ensures info != null && table != null ==>
      && TxStarts(table[..], trainNum, pcieBase, at) && end == at[trainNum] % TWO_32
      && TxTold(table[..], old(info[..]), info[..], at)
  {
    if info == null || table == null {
      return 0, [];
    }
    ghost var was, trains := info[..], table[..];
    end, at := pcieBase, [pcieBase as nat];
    var i := 0;
    while i < trainNum
      invariant 0 <= i <= trainNum && table[..] == trains
      invariant TxStarts(trains, i, pcieBase, at) && end == at[i] % TWO_32
      invariant TxTold(trains, was, info[..], at)
    {
      if !table[i].Empty() {
        var filled, next := TxPcieAddrTrain(table[i], info[i], end, at[i]);
        info[i] := filled;
        end := next;
      }
      at := at + [at[i] + trains[i].Footprint()];
      i := i + 1;
    }
  }

  method TxPcieAddrTrain(t: TxTrain, info: CarInfo, pcieAddr: word, ghost at: nat) returns (filled: CarInfo, next: word)
    requires !t.Empty() && pcieAddr == at % TWO_32
    ensures filled == TxInfo(t, info, at) && next == (at + t.Footprint()) % TWO_32
  {
    var scarLen, bcarLen := t.LenS(), t.LenB();
    ghost var end := at;
    var headerLen := TRAIN_HEADER_LEN;
    filled, next := info.(header := pcieAddr), pcieAddr;
    if t.numS != 0 {
      headerLen := 0;
      filled := filled.(s0 := Add32(pcieAddr, TRAIN_HEADER_LEN, at),
                        s1 := Add32(pcieAddr, TRAIN_HEADER_LEN + scarLen, at));
      end, next := at + TRAIN_HEADER_LEN + scarLen * 2, Add32(pcieAddr, TRAIN_HEADER_LEN + scarLen * 2, at);
    } else {
      filled := filled.(s0 := 0, s1 := 0);
    }
    assert end + headerLen == at + TRAIN_HEADER_LEN + 2 * scarLen;
    if t.numB != 0 {
      filled := filled.(b0 := Add32(next, headerLen, end), b1 := Add32(next, headerLen + bcarLen, end));
      end, next := end + headerLen + bcarLen * 2, Add32(next, headerLen + bcarLen * 2, end);
    } else {
      filled := filled.(b0 := 0, b1 := 0);
    }
  }

  method RxRamAddrTrain(t: RxTrain, ramAddr: dword, ghost at: nat) returns (placed: RxTrain, next: dword)
    requires t.WellFormed() && t.Len() != 0 && ramAddr == at % TWO_64
    ensures placed == PlaceRx(t, at) && next == (at + t.Footprint()) % TWO_64
  {
    var carLen := t.Len();
    var p0, p1 := FillBanks(t.car0, t.car1, t.num, t.size,
                            Add64(ramAddr, TRAIN_HEADER_LEN, at), Add64(ramAddr, TRAIN_HEADER_LEN + carLen, at),
                            at + TRAIN_HEADER_LEN, at + TRAIN_HEADER_LEN + carLen);
    placed := t.(header := ramAddr, car0 := p0, car1 := p1);
    next := Add64(ramAddr, TRAIN_HEADER_LEN + carLen * 2, at);
  }

  /** The RAM pointers of an FPGA-to-CPU table. The end address is cut to 32 bits by its return type. */
  method RxRamAddrInit(table: array?<RxTrain>, trainNum: nat, ramBase: dword)
    returns (end: word, ghost at: seq<nat>)
    requires table != null ==> trainNum <= table.Length && forall i :: 0 <= i < trainNum ==> table[i].WellFormed()
    modifies table
    ensures table == null ==> end == 0
    ensures table != null ==>
      && RxStarts(old(table[..]), trainNum, ramBase, at) && end == at[trainNum] % TWO_32
      && RxPlaced(old(table[..]), table[..], at)
  {
    if table == null {
      return 0, [];
    }
    ghost var was := table[..];
    var ramAddr: dword := ramBase;
    at := [ramBase as nat];
    var i := 0;
    while i < trainNum
      invariant 0 <= i <= trainNum
      invariant RxStarts(was, i, ramBase, at) && ramAddr == at[i] % TWO_64
      invariant RxPlaced(was, table[..], at)
    {
      if table[i].Len() != 0 {
        var placed, next := RxRamAddrTrain(table[i], ramAddr, at[i]);
        table[i] := placed;
        ramAddr := next;
      }
      at := at + [at[i] + was[i].Footprint()];
      i := i + 1;
    }
    Wrap64Then32(at[trainNum]);
    end := ramAddr % TWO_32;
  }

  method RxPcieAddrTrain(t: RxTrain, info: CarInfo, pcieAddr: word, ghost at: nat) returns (filled: CarInfo, next: word)
    requires t.Len() != 0 && pcieAddr == at % TWO_32
    ensures filled == RxInfo(t, info, at) && next == (at + t.Footprint()) % TWO_32
  {
    var carLen := t.Len();
    var bank0, bank1 := Add32(pcieAddr, TRAIN_HEADER_LEN, at), Add32(pcieAddr, TRAIN_HEADER_LEN + carLen, at);
    if t.size == CAR_LEN_B {
      filled := info.(header := pcieAddr, s0 := 0, s1 := 0, b0 := bank0, b1 := bank1);
    } else {
      filled := info.(header := pcieAddr, s0 := bank0, s1 := bank1, b0 := 0, b1 := 0);
    }
    next := Add32(pcieAddr, TRAIN_HEADER_LEN + carLen * 2, at);
  }

  /** The PCIe addresses of an FPGA-to-CPU table: a train of 2048-byte cars is announced as big cars. */
  method RxPcieAddrInit(info: array?<CarInfo>, table: array?<RxTrain>, trainNum: nat, pcieBase: word)
    returns (end: word, ghost at: seq<nat>)
    requires info != null && table != null ==> trainNum <= table.Length && trainNum <= info.Length
    modifies info
    ensures info == null || table == null ==> end == 0
    ensures info != null && table == null ==> info[..] == old(info[..])
    ensures info != null && table != null ==>
      && RxStarts(table[..], trainNum, pcieBase, at) && end == at[trainNum] % TWO_32
      && RxTold(table[..], old(info[..]), info[..], at)
  {
    if info == null || table == null {
      return 0, [];
    }
    ghost var was, trains := info[..], table[..];
    end, at := pcieBase, [pcieBase as nat];
    var i := 0;
    while i < trainNum
      invariant 0 <= i <= trainNum && table[..] == trains
      invariant RxStarts(trains, i, pcieBase, at) && end == at[i] % TWO_32
      invariant RxTold(trains, was, info[..], at)
    {
      if table[i].Len() != 0 {
        var filled, next := RxPcieAddrTrain(table[i], info[i], end, at[i]);
        info[i] := filled;
        end := next;
      }
      at := at + [at[i] + trains[i].Footprint()];
      i := i + 1;
    }
  }

  // ---------------------------------------------------------------- soundness of the layout

  datatype Region = Region(addr: nat, len: nat)

  function CarRegions(cars: seq<nat>, n: nat, size: nat): seq<Region>
    requires n <= |cars|
  {
    seq(n, j requires 0 <= j < n => Region(cars[j], size))
  }

  /** The header and every car of a train, read off its pointers in bank order. */
  function TxItems(t: TxTrain): seq<Region>
    requires t.WellFormed()
  {
    if t.Empty() then []
    else
      [Region(t.header, TRAIN_HEADER_LEN)]
      + (CarRegions(t.s0, t.numS, t.sizeS) + CarRegions(t.s1, t.numS, t.sizeS))
      + (CarRegions(t.b0, t.numB, t.sizeB) + CarRegions(t.b1, t.numB, t.sizeB))
  }

  function RxItems(t: RxTrain): seq<Region>
    requires t.WellFormed()
  {
    if t.Len() == 0 then []
    else
      [Region(t.header, TRAIN_HEADER_LEN)]
      + (CarRegions(t.car0, t.num, t.size) + CarRegions(t.car1, t.num, t.size))
  }

  predicate TxTableWellFormed(table: seq<TxTrain>) {
    forall i :: 0 <= i < |table| ==> table[i].WellFormed()
  }

  predicate RxTableWellFormed(table: seq<RxTrain>) {
    forall i :: 0 <= i < |table| ==> table[i].WellFormed()
  }

  /** The regions of all parts, one part after another. */
  function Joined(parts: seq<seq<Region>>): seq<Region> {
    if parts == [] then [] else Joined(parts[..|parts| - 1]) + parts[|parts| - 1]
  }

  function TxParts(table: seq<TxTrain>): (p: seq<seq<Region>>)
    requires TxTableWellFormed(table)
    ensures |p| == |table|
  {
    seq(|table|, k requires 0 <= k < |table| => TxItems(table[k]))
  }

  function RxParts(table: seq<RxTrain>): (p: seq<seq<Region>>)
    requires RxTableWellFormed(table)
    ensures |p| == |table|
  {
    seq(|table|, k requires 0 <= k < |table| => RxItems(table[k]))
  }

  /** The regions of the trains of a table. */
  function TxTableItems(table: seq<TxTrain>): seq<Region>
    requires TxTableWellFormed(table)
  {
    Joined(TxParts(table))
  }

  function RxTableItems(table: seq<RxTrain>): seq<Region>
    requires RxTableWellFormed(table)
  {
    Joined(RxParts(table))
  }

  /** Bytes taken by the first `n` trains of a table. */
  function TxTotal(table: seq<TxTrain>, n: nat): nat
    requires n <= |table|
  {
    if n == 0 then 0 else TxTotal(table, n - 1) + table[n - 1].Footprint()
  }

  /** Bytes taken by the first `n` trains of a table. */
  function RxTotal(table: seq<RxTrain>, n: nat): nat
    requires n <= |table|
  {
    if n == 0 then 0 else RxTotal(table, n - 1) + table[n - 1].Footprint()
  }

  /** The regions fill [lo, hi) in order, with no gap and no overlap. */
  predicate Packed(items: seq<Region>, lo: nat, hi: nat) {
    if items == [] then lo == hi
    else
      var last := items[|items| - 1];
      last.addr + last.len == hi && Packed(items[..|items| - 1], lo, last.addr)
  }

  lemma {:induction false} PackedAppend(a: seq<Region>, b: seq<Region>, lo: nat, mid: nat, hi: nat)
    requires Packed(a, lo, mid) && Packed(b, mid, hi)
    ensures Packed(a + b, lo, hi)
  {
    if b == [] {
      assert a + b == a;
    } else {
      var n := |b| - 1;
      PackedAppend(a, b[..n], lo, mid, b[n].addr);
      assert (a + b)[..|a + b| - 1] == a + b[..n];
    }
  }

  lemma {:induction false} PackedJoined(parts: seq<seq<Region>>, at: seq<nat>, n: nat)
    requires |parts| == n < |at|
    requires forall k {:trigger at[k + 1]} :: 0 <= k < n ==> Packed(parts[k], at[k], at[k + 1])
    ensures Packed(Joined(parts), at[0], at[n])
  {
    if n > 0 {
      var k := n - 1;
      PackedJoined(parts[..k], at, k);
      assert Packed(parts[k], at[k], at[k + 1]);
      PackedAppend(Joined(parts[..k]), parts[k], at[0], at[k], at[n]);
    }
  }

  /** Packed regions are pairwise disjoint and stay inside [lo, hi). */
  lemma {:induction false} PackedApart(items: seq<Region>, lo: nat, hi: nat)
    requires Packed(items, lo, hi)
    ensures forall i :: 0 <= i < |items| ==> lo <= items[i].addr && items[i].addr + items[i].len <= hi
    ensures forall i, j :: 0 <= i < j < |items| ==> items[i].addr + items[i].len <= items[j].addr
    ensures lo <= hi
  {
    if items != [] {
      PackedApart(items[..|items| - 1], lo, items[|items| - 1].addr);
    }
  }

  predicate LengthAligned(r: Region) { r.len % TRAIN_HEADER_LEN == 0 }

  /** Every region's length is a multiple of 128. */
  predicate LengthsAligned(items: seq<Region>) {
    forall i :: 0 <= i < |items| ==> LengthAligned(items[i])
  }

  /** From an aligned start, regions of aligned lengths all start aligned. */
  lemma {:induction false} PackedAligned(items: seq<Region>, lo: nat, hi: nat)
    requires Packed(items, lo, hi) && LengthsAligned(items) && lo % TRAIN_HEADER_LEN == 0
    ensures hi % TRAIN_HEADER_LEN == 0
    ensures forall i :: 0 <= i < |items| ==> items[i].addr % TRAIN_HEADER_LEN == 0
  {
    if items != [] {
      var last := items[|items| - 1];
      PackedAligned(items[..|items| - 1], lo, last.addr);
      assert LengthAligned(last);
      AlignedEnd(last.addr, last.len);
    }
  }

  lemma AlignedEnd(addr: nat, len: nat)
    requires addr % TRAIN_HEADER_LEN == 0 && len % TRAIN_HEADER_LEN == 0
    ensures (addr + len) % TRAIN_HEADER_LEN == 0
  {}

  lemma {:induction false} BankPacked(cars: seq<nat>, n: nat, size: nat, at: nat)
    requires n <= |cars| && forall j :: 0 <= j < n ==> cars[j] == at + size * j
    ensures Packed(CarRegions(cars, n, size), at, at + size * n)
  {
    if n > 0 {
      BankPacked(cars, n - 1, size, at);
      assert CarRegions(cars, n, size)[..n - 1] == CarRegions(cars, n - 1, size);
      assert size * n == size * (n - 1) + size;
    }
  }

  lemma ProductGrows(size: nat, j: nat, n: nat)
    requires j <= n
    ensures size * j <= size * n
  {
    assert size * n == size * j + size * (n - j);
  }

  lemma NoWrap(x: nat)
    requires x < TWO_64
    ensures x % TWO_64 == x
  {}

  /** A filled bank that ends inside the address space is packed. */
  lemma FilledPacked(cars: seq<nat>, n: nat, at: nat, size: nat)
    requires n <= |cars| && at + size * n < TWO_64
    ensures Packed(CarRegions(Filled(cars, n, at, size), n, size), at, at + size * n)
  {
    forall j | 0 <= j < n ensures Filled(cars, n, at, size)[j] == at + size * j {
      ProductGrows(size, j, n);
      NoWrap(at + size * j);
    }
    BankPacked(Filled(cars, n, at, size), n, size, at);
  }

  lemma TwoBanksPacked(cars0: seq<nat>, cars1: seq<nat>, n: nat, at: nat, size: nat, len: nat)
    requires n <= |cars0| && n <= |cars1| && len == n * size && at + 2 * len < TWO_64
    ensures Packed(CarRegions(Filled(cars0, n, at, size), n, size)
                   + CarRegions(Filled(cars1, n, at + len, size), n, size), at, at + 2 * len)
  {
    assert len == size * n;
    FilledPacked(cars0, n, at, size);
    FilledPacked(cars1, n, at + len, size);
    PackedAppend(CarRegions(Filled(cars0, n, at, size), n, size),
                 CarRegions(Filled(cars1, n, at + len, size), n, size), at, at + len, at + 2 * len);
  }

  lemma HeaderPacked(at: nat)
    requires at < TWO_64
    ensures Packed([Region(at % TWO_64, TRAIN_HEADER_LEN)], at, at + TRAIN_HEADER_LEN)
  {
    var head := [Region(at, TRAIN_HEADER_LEN)];
    assert head[..0] == [] && Packed(head[..0], at, at);
  }

  /** A placed train fills exactly its footprint. */
  lemma TxTrainPacked(t: TxTrain, at: nat)
    requires t.WellFormed() && at + t.Footprint() < TWO_64
    ensures PlaceTx(t, at).WellFormed() && Packed(TxItems(PlaceTx(t, at)), at, at + t.Footprint())
  {
    if !t.Empty() {
      var p := PlaceTx(t, at);
      var s := at + TRAIN_HEADER_LEN;
      var b := s + 2 * t.LenS();
      var head := [Region(p.header, TRAIN_HEADER_LEN)];
      var small := CarRegions(p.s0, t.numS, t.sizeS) + CarRegions(p.s1, t.numS, t.sizeS);
      var big := CarRegions(p.b0, t.numB, t.sizeB) + CarRegions(p.b1, t.numB, t.sizeB);
      TwoBanksPacked(t.s0, t.s1, t.numS, s, t.sizeS, t.LenS());
      TwoBanksPacked(t.b0, t.b1, t.numB, b, t.sizeB, t.LenB());
      assert at + t.Footprint() == b + 2 * t.LenB();
      assert p.b0 == Filled(t.b0, t.numB, b, t.sizeB) && p.b1 == Filled(t.b1, t.numB, b + t.LenB(), t.sizeB);
      HeaderPacked(at);
      PackedAppend(head, small, at, s, b);
      PackedAppend(head + small, big, at, b, b + 2 * t.LenB());
      assert TxItems(p) == head + small + big;
    }
  }

  lemma RxTrainPacked(t: RxTrain, at: nat)
    requires t.WellFormed() && at + t.Footprint() < TWO_64
    ensures PlaceRx(t, at).WellFormed() && Packed(RxItems(PlaceRx(t, at)), at, at + t.Footprint())
  {
    if t.Len() != 0 {
      var p := PlaceRx(t, at);
      var head := [Region(p.header, TRAIN_HEADER_LEN)];
      var cars := CarRegions(p.car0, t.num, t.size) + CarRegions(p.car1, t.num, t.size);
      TwoBanksPacked(t.car0, t.car1, t.num, at + TRAIN_HEADER_LEN, t.size, t.Len());
      HeaderPacked(at);
      PackedAppend(head, cars, at, at + TRAIN_HEADER_LEN, at + t.Footprint());
      assert RxItems(p) == head + cars;
    }
  }

  /** The allocator's running address is the base plus the footprints so far. */
  lemma {:induction false} TxStartsTotal(table: seq<TxTrain>, base: nat, at: seq<nat>, n: nat)
    requires n < |at| && TxStarts(table, |at| - 1, base, at)
    ensures at[n] == base + TxTotal(table, n)
  {
    if n > 0 {
      var k := n - 1;
      TxStartsTotal(table, base, at, k);
      assert at[k + 1] == at[k] + table[k].Footprint();
    }
  }

  lemma {:induction false} RxStartsTotal(table: seq<RxTrain>, base: nat, at: seq<nat>, n: nat)
    requires n < |at| && RxStarts(table, |at| - 1, base, at)
    ensures at[n] == base + RxTotal(table, n)
  {
    if n > 0 {
      var k := n - 1;
      RxStartsTotal(table, base, at, k);
      assert at[k + 1] == at[k] + table[k].Footprint();
    }
  }

  lemma {:induction false} TxTotalGrows(table: seq<TxTrain>, i: nat, n: nat)
    requires i <= n <= |table|
    ensures TxTotal(table, i) <= TxTotal(table, n)
  {
    if i < n {
      TxTotalGrows(table, i, n - 1);
    }
  }

  lemma {:induction false} RxTotalGrows(table: seq<RxTrain>, i: nat, n: nat)
    requires i <= n <= |table|
    ensures RxTotal(table, i) <= RxTotal(table, n)
  {
    if i < n {
      RxTotalGrows(table, i, n - 1);
    }
  }

  lemma TxPlacedWellFormed(was: seq<TxTrain>, now: seq<TxTrain>, at: seq<nat>)
    requires |at| == |was| + 1 && TxPlaced(was, now, at) && TxTableWellFormed(was)
    ensures TxTableWellFormed(now)
  {
    forall i | 0 <= i < |now| ensures now[i].WellFormed() {
      assert now[i] == PlaceTx(was[i], at[i]) && was[i].WellFormed();
    }
  }

  lemma TxNextPacked(was: seq<TxTrain>, now: seq<TxTrain>, base: nat, at: seq<nat>, k: nat)
    requires k < |at| - 1 && TxStarts(was, |at| - 1, base, at) && TxPlaced(was, now, at) && at[k + 1] < TWO_64
    requires was[k].WellFormed()
    ensures now[k].WellFormed() && Packed(TxItems(now[k]), at[k], at[k + 1])
  {
    assert at[k + 1] == at[k] + was[k].Footprint() && now[k] == PlaceTx(was[k], at[k]);
    TxTrainPacked(was[k], at[k]);
  }

  lemma TxTablePacked(was: seq<TxTrain>, now: seq<TxTrain>, base: nat, at: seq<nat>)
    requires TxStarts(was, |was|, base, at) && TxPlaced(was, now, at) && at[|was|] < TWO_64
    requires TxTableWellFormed(was) && TxTableWellFormed(now)
    ensures Packed(TxTableItems(now), base, at[|was|])
  {
    var parts := TxParts(now);
    forall k {:trigger at[k + 1]} | 0 <= k < |was| ensures Packed(parts[k], at[k], at[k + 1]) {
      TxStartsTotal(was, base, at, k + 1);
      TxStartsTotal(was, base, at, |was|);
      TxTotalGrows(was, k + 1, |was|);
      TxNextPacked(was, now, base, at, k);
    }
    PackedJoined(parts, at, |was|);
  }

  lemma RxPlacedWellFormed(was: seq<RxTrain>, now: seq<RxTrain>, at: seq<nat>)
    requires |at| == |was| + 1 && RxPlaced(was, now, at) && RxTableWellFormed(was)
    ensures RxTableWellFormed(now)
  {
    forall i | 0 <= i < |now| ensures now[i].WellFormed() {
      assert now[i] == PlaceRx(was[i], at[i]) && was[i].WellFormed();
    }
  }

  lemma RxNextPacked(was: seq<RxTrain>, now: seq<RxTrain>, base: nat, at: seq<nat>, k: nat)
    requires k < |at| - 1 && RxStarts(was, |at| - 1, base, at) && RxPlaced(was, now, at) && at[k + 1] < TWO_64
    requires was[k].WellFormed()
    ensures now[k].WellFormed() && Packed(RxItems(now[k]), at[k], at[k + 1])
  {
    assert at[k + 1] == at[k] + was[k].Footprint() && now[k] == PlaceRx(was[k], at[k]);
    RxTrainPacked(was[k], at[k]);
  }

  lemma RxTablePacked(was: seq<RxTrain>, now: seq<RxTrain>, base: nat, at: seq<nat>)
    requires RxStarts(was, |was|, base, at) && RxPlaced(was, now, at) && at[|was|] < TWO_64
    requires RxTableWellFormed(was) && RxTableWellFormed(now)
    ensures Packed(RxTableItems(now), base, at[|was|])
  {
    var parts := RxParts(now);
    forall k {:trigger at[k + 1]} | 0 <= k < |was| ensures Packed(parts[k], at[k], at[k + 1]) {
      RxStartsTotal(was, base, at, k + 1);
      RxStartsTotal(was, base, at, |was|);
      RxTotalGrows(was, k + 1, |was|);
      RxNextPacked(was, now, base, at, k);
    }
    PackedJoined(parts, at, |was|);
  }

  /** TX trains from `base`, RX trains from where TX ended: everything is packed, whatever the tables. */
  lemma SlotPacked(txWas: seq<TxTrain>, tx: seq<TxTrain>, txAt: seq<nat>,
                   rxWas: seq<RxTrain>, rx: seq<RxTrain>, rxAt: seq<nat>, base: nat)
    requires TxTableWellFormed(txWas) && TxTableWellFormed(tx) && RxTableWellFormed(rxWas) && RxTableWellFormed(rx)
    requires TxStarts(txWas, |txWas|, base, txAt) && TxPlaced(txWas, tx, txAt)
    requires RxStarts(rxWas, |rxWas|, txAt[|txWas|], rxAt) && RxPlaced(rxWas, rx, rxAt)
    requires txAt[|txWas|] < TWO_64 && rxAt[|rxWas|] < TWO_64
    ensures Packed(TxTableItems(tx) + RxTableItems(rx), base, rxAt[|rxWas|])
  {
    var mid := txAt[|txWas|];
    TxTablePacked(txWas, tx, base, txAt);
    RxTablePacked(rxWas, rx, mid, rxAt);
    PackedAppend(TxTableItems(tx), RxTableItems(rx), base, mid, rxAt[|rxWas|]);
  }

  /** Both allocators' wrapping addresses are the exact ones, as long as the whole slot ends below 2^64. */
  lemma SlotEnds(txWas: seq<TxTrain>, txAt: seq<nat>, rxWas: seq<RxTrain>, rxAt: seq<nat>,
                 base: nat, rxBase: nat, end: nat)
    requires TxStarts(txWas, |txWas|, base, txAt)
    requires RxStarts(rxWas, |rxWas|, rxBase, rxAt) && rxBase == txAt[|txWas|] % TWO_64
    requires end == base + TxTotal(txWas, |txWas|) + RxTotal(rxWas, |rxWas|) < TWO_64
    ensures rxBase == txAt[|txWas|] && rxAt[|rxWas|] == end
  {
    TxStartsTotal(txWas, base, txAt, |txWas|);
    RxStartsTotal(rxWas, rxBase, rxAt, |rxWas|);
    NoWrap(txAt[|txWas|]);
  }

  lemma SlotPlaced(txWas: seq<TxTrain>, tx: seq<TxTrain>, txAt: seq<nat>, rxWas: seq<RxTrain>, rx: seq<RxTrain>,
                   rxAt: seq<nat>, base: nat, rxBase: nat, end: nat)
    requires TxTableWellFormed(txWas) && TxTableWellFormed(tx) && RxTableWellFormed(rxWas) && RxTableWellFormed(rx)
    requires TxStarts(txWas, |txWas|, base, txAt) && TxPlaced(txWas, tx, txAt)
    requires RxStarts(rxWas, |rxWas|, rxBase, rxAt) && RxPlaced(rxWas, rx, rxAt) && rxBase == txAt[|txWas|] % TWO_64
    requires end == base + TxTotal(txWas, |txWas|) + RxTotal(rxWas, |rxWas|) < TWO_64
    ensures Packed(TxTableItems(tx) + RxTableItems(rx), base, end)
  {
    SlotEnds(txWas, txAt, rxWas, rxAt, base, rxBase, end);
    SlotPacked(txWas, tx, txAt, rxWas, rx, rxAt, base);
  }

  /**
   One board slot of the start-up code: all TX trains from the window base, then the RX trains
   from where TX ended. Every header and car of the slot then fills the window without overlap.
   */
  method SlotRamAddrInit(tx: array<TxTrain>, rx: array<RxTrain>, base: word)
    requires TxTableWellFormed(tx[..])
    requires RxTableWellFormed(rx[..])
    modifies tx, rx
    ensures TxTableWellFormed(tx[..])
    ensures RxTableWellFormed(rx[..])
    ensures var end := base + TxTotal(old(tx[..]), tx.Length) + RxTotal(old(rx[..]), rx.Length);
      end < TWO_64 ==> Packed(TxTableItems(tx[..]) + RxTableItems(rx[..]), base, end)
  {
    ghost var txWas, rxWas := tx[..], rx[..];
    var end, txAt := TxRamAddrInit(tx, tx.Length, base);
    ghost var placed := tx[..];
    assert rx[..] == rxWas;
    var rxEnd, rxAt := RxRamAddrInit(rx, rx.Length, end);
    assert tx[..] == placed;
    TxPlacedWellFormed(txWas, placed, txAt);
    RxPlacedWellFormed(rxWas, rx[..], rxAt);
    ghost var slotEnd := base + TxTotal(txWas, |txWas|) + RxTotal(rxWas, |rxWas|);
    if slotEnd < TWO_64 {
      SlotPlaced(txWas, placed, txAt, rxWas, rx[..], rxAt, base, end, slotEnd);
    }
  }

  // ---------------------------------------------------------------- the shipped tables

  const NO_CARS := seq(CAR_NUM, _ => 0)

  const SMALL_TX := TxTrain(0, NO_CARS, NO_CARS, NO_CARS, NO_CARS, CAR_LEN_S, 0, CAR_NUM, 0)
  const MIXED_TX := TxTrain(0, NO_CARS, NO_CARS, NO_CARS, NO_CARS, CAR_LEN_S, CAR_LEN_B, CAR_NUM, CAR_NUM)
  const BIG_TX := TxTrain(0, NO_CARS, NO_CARS, NO_CARS, NO_CARS, 0, CAR_LEN_B, 0, CAR_NUM)
  const SMALL_RX := RxTrain(0, NO_CARS, NO_CARS, CAR_LEN_S, CAR_NUM)
  const BIG_RX := RxTrain(0, NO_CARS, NO_CARS, CAR_LEN_B, CAR_NUM)

  /** The same for slots 0/1, 2 and 3: one small train, eight mixed ones, one big one; and four RX trains. */
  const SHIPPED_TX := [SMALL_TX] + seq(8, _ => MIXED_TX) + [BIG_TX]
  const SHIPPED_RX := [SMALL_RX, SMALL_RX, BIG_RX, BIG_RX]

  const IB_SPACE := 1024 * 1024

  /** The shipped tables use 767744 bytes, so a slot fits its 1 MiB window. */
  lemma ShippedTablesFit()
    ensures TxTotal(SHIPPED_TX, |SHIPPED_TX|) == 627968 && RxTotal(SHIPPED_RX, |SHIPPED_RX|) == 139776
    ensures TxTotal(SHIPPED_TX, |SHIPPED_TX|) + RxTotal(SHIPPED_RX, |SHIPPED_RX|) <= IB_SPACE
  {
    assert SMALL_TX.Footprint() == 4224 && MIXED_TX.Footprint() == 69760 && BIG_TX.Footprint() == 65664;
    assert SMALL_RX.Footprint() == 4224 && BIG_RX.Footprint() == 65664;
    assert TxTotal(SHIPPED_TX, 1) == 4224;
    assert TxTotal(SHIPPED_TX, 3) == 4224 + 2 * 69760;
    assert TxTotal(SHIPPED_TX, 5) == 4224 + 4 * 69760;
    assert TxTotal(SHIPPED_TX, 7) == 4224 + 6 * 69760;
    assert TxTotal(SHIPPED_TX, 9) == 4224 + 8 * 69760;
    assert RxTotal(SHIPPED_RX, 1) == 4224;
    assert RxTotal(SHIPPED_RX, 3) == 8448 + 65664;
  }

  predicate TxSizesAligned(table: seq<TxTrain>) {
    forall i :: 0 <= i < |table| ==> table[i].sizeS % TRAIN_HEADER_LEN == 0 && table[i].sizeB % TRAIN_HEADER_LEN == 0
  }

  predicate RxSizesAligned(table: seq<RxTrain>) {
    forall i :: 0 <= i < |table| ==> table[i].size % TRAIN_HEADER_LEN == 0
  }

  lemma AlignedAppend(a: seq<Region>, b: seq<Region>)
    requires LengthsAligned(a) && LengthsAligned(b)
    ensures LengthsAligned(a + b)
  {}

  lemma {:induction false} AlignedJoined(parts: seq<seq<Region>>)
    requires forall k :: 0 <= k < |parts| ==> LengthsAligned(parts[k])
    ensures LengthsAligned(Joined(parts))
  {
    if parts != [] {
      var k := |parts| - 1;
      AlignedJoined(parts[..k]);
      AlignedAppend(Joined(parts[..k]), parts[k]);
    }
  }

  /** With 128-multiple car sizes every header and car length is a multiple of 128. */
  lemma TxItemsAligned(t: TxTrain)
    requires t.WellFormed() && t.sizeS % TRAIN_HEADER_LEN == 0 && t.sizeB % TRAIN_HEADER_LEN == 0
    ensures LengthsAligned(TxItems(t))
  {}

  lemma TxLengthsAligned(table: seq<TxTrain>)
    requires TxTableWellFormed(table) && TxSizesAligned(table)
    ensures LengthsAligned(TxTableItems(table))
  {
    var parts := TxParts(table);
    forall k | 0 <= k < |parts| ensures LengthsAligned(parts[k]) {
      TxItemsAligned(table[k]);
    }
    AlignedJoined(parts);
  }

  lemma RxItemsAligned(t: RxTrain)
    requires t.WellFormed() && t.size % TRAIN_HEADER_LEN == 0
    ensures LengthsAligned(RxItems(t))
  {}

  lemma RxLengthsAligned(table: seq<RxTrain>)
    requires RxTableWellFormed(table) && RxSizesAligned(table)
    ensures LengthsAligned(RxTableItems(table))
  {
    var parts := RxParts(table);
    forall k | 0 <= k < |parts| ensures LengthsAligned(parts[k]) {
      RxItemsAligned(table[k]);
    }
    AlignedJoined(parts);
  }

  /** What a packed slot means: nothing overlaps, nothing leaves the window, and all of it is aligned. */
  lemma SlotSound(tx: seq<TxTrain>, rx: seq<RxTrain>, base: nat, end: nat)
    requires TxTableWellFormed(tx) && RxTableWellFormed(rx)
    requires Packed(TxTableItems(tx) + RxTableItems(rx), base, end)
    ensures var items := TxTableItems(tx) + RxTableItems(rx);
      && (forall i :: 0 <= i < |items| ==> base <= items[i].addr && items[i].addr + items[i].len <= end)
      && (forall i, j :: 0 <= i < j < |items| ==> items[i].addr + items[i].len <= items[j].addr)
      && (base % TRAIN_HEADER_LEN == 0 && TxSizesAligned(tx) && RxSizesAligned(rx) ==>
            forall i :: 0 <= i < |items| ==> items[i].addr % TRAIN_HEADER_LEN == 0)
  {
    var items := TxTableItems(tx) + RxTableItems(rx);
    PackedApart(items, base, end);
    if base % TRAIN_HEADER_LEN == 0 && TxSizesAligned(tx) && RxSizesAligned(rx) {
      TxLengthsAligned(tx);
      RxLengthsAligned(rx);
      AlignedAppend(TxTableItems(tx), RxTableItems(rx));
      PackedAligned(items, base, end);
    }
  }

  // ---------------------------------------------------------------- RAM pointers and PCIe addresses agree

  /** Every address told to the FPGA is the low word of the RAM pointer it stands for, and 0 where there is no bank. */
  predicate TxAgrees(t: TxTrain, info: CarInfo)
    requires t.WellFormed()
  {
    && info.header == t.header % TWO_32
    && info.s0 == (if t.numS == 0 then 0 else t.s0[0] % TWO_32)
    && info.s1 == (if t.numS == 0 then 0 else t.s1[0] % TWO_32)
    && info.b0 == (if t.numB == 0 then 0 else t.b0[0] % TWO_32)
    && info.b1 == (if t.numB == 0 then 0 else t.b1[0] % TWO_32)
  }

  predicate RxAgrees(t: RxTrain, info: CarInfo)
    requires t.WellFormed() && t.num > 0
  {
    var bank0, bank1 := t.car0[0] % TWO_32, t.car1[0] % TWO_32;
    && info.header == t.header % TWO_32
    && (info.s0, info.s1, info.b0, info.b1) ==
       if t.size == CAR_LEN_B then (0, 0, bank0, bank1) else (bank0, bank1, 0, 0)
  }

  lemma SameLowWord(ram: nat, pcie: nat, n: nat)
    requires ram % TWO_32 == pcie % TWO_32
    ensures ((ram + n) % TWO_64) % TWO_32 == (pcie + n) % TWO_32
  {
    Wrap64Then32(ram + n);
    Wrap32Add(ram, n);
    Wrap32Add(pcie, n);
  }

  /** The pointers of a placed train that the FPGA is told about. */
  lemma TxFirstPointers(t: TxTrain, at: nat)
    requires t.WellFormed() && !t.Empty()
    ensures PlaceTx(t, at).WellFormed() && PlaceTx(t, at).header == at % TWO_64
    ensures t.numS > 0 ==>
      && PlaceTx(t, at).s0[0] == (at + TRAIN_HEADER_LEN) % TWO_64
      && PlaceTx(t, at).s1[0] == (at + (TRAIN_HEADER_LEN + t.LenS())) % TWO_64
    ensures t.numB > 0 ==>
      && PlaceTx(t, at).b0[0] == (at + (TRAIN_HEADER_LEN + 2 * t.LenS())) % TWO_64
      && PlaceTx(t, at).b1[0] == (at + (TRAIN_HEADER_LEN + 2 * t.LenS() + t.LenB())) % TWO_64
  {}

  lemma TxTrainAgrees(t: TxTrain, info: CarInfo, ram: nat, pcie: nat)
    requires t.WellFormed() && !t.Empty() && ram % TWO_32 == pcie % TWO_32
    ensures PlaceTx(t, ram).WellFormed() && TxAgrees(PlaceTx(t, ram), TxInfo(t, info, pcie))
  {
    TxFirstPointers(t, ram);
    var b := TRAIN_HEADER_LEN + 2 * t.LenS();
    SameLowWord(ram, pcie, 0);
    SameLowWord(ram, pcie, TRAIN_HEADER_LEN);
    SameLowWord(ram, pcie, TRAIN_HEADER_LEN + t.LenS());
    SameLowWord(ram, pcie, b);
    SameLowWord(ram, pcie, b + t.LenB());
  }

  lemma RxTrainAgrees(t: RxTrain, info: CarInfo, ram: nat, pcie: nat)
    requires t.WellFormed() && t.Len() != 0 && ram % TWO_32 == pcie % TWO_32
    ensures PlaceRx(t, ram).WellFormed() && RxAgrees(PlaceRx(t, ram), RxInfo(t, info, pcie))
  {
    SameLowWord(ram, pcie, 0);
    SameLowWord(ram, pcie, TRAIN_HEADER_LEN);
    SameLowWord(ram, pcie, TRAIN_HEADER_LEN + t.Len());
  }

  /** Every address told to the FPGA is the RAM pointer itself, and 0 where there is no bank. */
  predicate TxEqual(t: TxTrain, info: CarInfo)
    requires t.WellFormed()
  {
    && info.header == t.header
    && info.s0 == (if t.numS == 0 then 0 else t.s0[0]) && info.s1 == (if t.numS == 0 then 0 else t.s1[0])
    && info.b0 == (if t.numB == 0 then 0 else t.b0[0]) && info.b1 == (if t.numB == 0 then 0 else t.b1[0])
  }

  predicate RxEqual(t: RxTrain, info: CarInfo)
    requires t.WellFormed() && t.num > 0
  {
    && info.header == t.header
    && (info.s0, info.s1, info.b0, info.b1) ==
       if t.size == CAR_LEN_B then (0, 0, t.car0[0], t.car1[0]) else (t.car0[0], t.car1[0], 0, 0)
  }

  lemma TxTrainEqual(t: TxTrain, info: CarInfo, at: nat)
    requires t.WellFormed() && !t.Empty() && at + t.Footprint() < TWO_32
    ensures PlaceTx(t, at).WellFormed() && TxEqual(PlaceTx(t, at), TxInfo(t, info, at))
  {
    TxFirstPointers(t, at);
    var b := TRAIN_HEADER_LEN + 2 * t.LenS();
    NoWrapEither(at);
    NoWrapEither(at + TRAIN_HEADER_LEN);
    NoWrapEither(at + TRAIN_HEADER_LEN + t.LenS());
    NoWrapEither(at + b);
    NoWrapEither(at + b + t.LenB());
  }

  lemma RxTrainEqual(t: RxTrain, info: CarInfo, at: nat)
    requires t.WellFormed() && t.Len() != 0 && at + t.Footprint() < TWO_32
    ensures t.num > 0 && PlaceRx(t, at).WellFormed() && RxEqual(PlaceRx(t, at), RxInfo(t, info, at))
  {
    NoWrapEither(at);
    NoWrapEither(at + TRAIN_HEADER_LEN);
    NoWrapEither(at + TRAIN_HEADER_LEN + t.Len());
  }

  lemma NoWrapEither(x: nat)
    requires x < TWO_32
    ensures x % TWO_32 == x && x % TWO_64 == x
  {}

  /** Two lists of start addresses that grow by the same steps keep the same low word. */
  lemma {:induction false} StartsSameLowWord(ramAt: seq<nat>, pcieAt: seq<nat>, i: nat)
    requires i < |ramAt| && i < |pcieAt| && ramAt[0] % TWO_32 == pcieAt[0] % TWO_32
    requires forall k {:trigger ramAt[k + 1]} :: 0 <= k < i ==>
      ramAt[k] <= ramAt[k + 1] && ramAt[k + 1] + pcieAt[k] == pcieAt[k + 1] + ramAt[k]
    ensures ramAt[i] % TWO_32 == pcieAt[i] % TWO_32
  {
    if i > 0 {
      var k := i - 1;
      StartsSameLowWord(ramAt, pcieAt, k);
      var step := ramAt[k + 1] - ramAt[k];
      Wrap32Add(ramAt[k], step);
      Wrap32Add(pcieAt[k], step);
    }
  }

  /**
   The two TX allocators agree on every table and every base with the same low word, wrapping or not:
   each address told to the FPGA is the low word of the RAM pointer, and so is the end address.
   Empty trains are skipped by both.
   */
  lemma TxAllocatorsAgree(was: seq<TxTrain>, now: seq<TxTrain>, ram: nat, ramAt: seq<nat>,
                          infoWas: seq<CarInfo>, info: seq<CarInfo>, pcie: nat, pcieAt: seq<nat>, n: nat)
    requires TxStarts(was, n, ram, ramAt) && TxPlaced(was, now, ramAt)
    requires TxStarts(was, n, pcie, pcieAt) && TxTold(was, infoWas, info, pcieAt)
    requires ram % TWO_32 == pcie % TWO_32
    requires forall i :: 0 <= i < n ==> was[i].WellFormed()
    ensures (ramAt[n] % TWO_64) % TWO_32 == pcieAt[n] % TWO_32
    ensures forall i :: 0 <= i < n ==>
      if was[i].Empty() then now[i] == was[i] && info[i] == infoWas[i]
      else now[i].WellFormed() && TxAgrees(now[i], info[i])
  {
    forall i | 0 <= i <= n ensures ramAt[i] % TWO_32 == pcieAt[i] % TWO_32 {
      StartsSameLowWord(ramAt, pcieAt, i);
    }
    Wrap64Then32(ramAt[n]);
    forall i | 0 <= i < n
      ensures if was[i].Empty() then now[i] == was[i] && info[i] == infoWas[i]
              else now[i].WellFormed() && TxAgrees(now[i], info[i])
    {
      assert now[i] == PlaceTx(was[i], ramAt[i]) && info[i] == TxInfo(was[i], infoWas[i], pcieAt[i]);
      if !was[i].Empty() {
        TxTrainAgrees(was[i], infoWas[i], ramAt[i], pcieAt[i]);
      }
    }
  }

  lemma RxAllocatorsAgree(was: seq<RxTrain>, now: seq<RxTrain>, ram: nat, ramAt: seq<nat>,
                          infoWas: seq<CarInfo>, info: seq<CarInfo>, pcie: nat, pcieAt: seq<nat>, n: nat)
    requires RxStarts(was, n, ram, ramAt) && RxPlaced(was, now, ramAt)
    requires RxStarts(was, n, pcie, pcieAt) && RxTold(was, infoWas, info, pcieAt)
    requires ram % TWO_32 == pcie % TWO_32
    requires forall i :: 0 <= i < n ==> was[i].WellFormed()
    ensures ramAt[n] % TWO_32 == pcieAt[n] % TWO_32
    ensures forall i :: 0 <= i < n ==>
      if was[i].Len() == 0 then now[i] == was[i] && info[i] == infoWas[i]
      else now[i].WellFormed() && now[i].num > 0 && RxAgrees(now[i], info[i])
  {
    forall i | 0 <= i <= n ensures ramAt[i] % TWO_32 == pcieAt[i] % TWO_32 {
      StartsSameLowWord(ramAt, pcieAt, i);
    }
    forall i | 0 <= i < n
      ensures if was[i].Len() == 0 then now[i] == was[i] && info[i] == infoWas[i]
              else now[i].WellFormed() && now[i].num > 0 && RxAgrees(now[i], info[i])
    {
      assert now[i] == PlaceRx(was[i], ramAt[i]) && info[i] == RxInfo(was[i], infoWas[i], pcieAt[i]);
      if was[i].Len() != 0 {
        RxTrainAgrees(was[i], infoWas[i], ramAt[i], pcieAt[i]);
      }
    }
  }

  /** Where a train starts does not depend on who computes it, and its footprint ends inside the total. */
  lemma TxStartExact(table: seq<TxTrain>, base: nat, at: seq<nat>, n: nat, i: nat)
    requires TxStarts(table, n, base, at) && i < n
    ensures at[i] == base + TxTotal(table, i)
    ensures at[i] + table[i].Footprint() == at[i + 1] <= base + TxTotal(table, n)
  {
    TxStartsTotal(table, base, at, i);
    TxStartsTotal(table, base, at, i + 1);
    TxTotalGrows(table, i + 1, n);
  }

  lemma TxEqualAt(was: seq<TxTrain>, now: seq<TxTrain>, base: nat, at: seq<nat>,
                  infoWas: seq<CarInfo>, info: seq<CarInfo>, pcieAt: seq<nat>, n: nat, i: nat)
    requires TxStarts(was, n, base, at) && TxPlaced(was, now, at)
    requires TxStarts(was, n, base, pcieAt) && TxTold(was, infoWas, info, pcieAt)
    requires base + TxTotal(was, n) < TWO_32 && i < n && was[i].WellFormed() && !was[i].Empty()
    ensures now[i].WellFormed() && TxEqual(now[i], info[i])
  {
    TxStartExact(was, base, at, n, i);
    TxStartExact(was, base, pcieAt, n, i);
    TxTrainEqual(was[i], infoWas[i], at[i]);
    assert now[i] == PlaceTx(was[i], at[i]) && info[i] == TxInfo(was[i], infoWas[i], pcieAt[i]);
  }

  /**
   From the same base and short of a 32-bit wrap, the FPGA is told the RAM pointers themselves, and both
   allocators end at the same address.
   */
  lemma TxAllocatorsEqual(was: seq<TxTrain>, now: seq<TxTrain>, base: nat, at: seq<nat>,
                          infoWas: seq<CarInfo>, info: seq<CarInfo>, pcieAt: seq<nat>, n: nat)
    requires TxStarts(was, n, base, at) && TxPlaced(was, now, at)
    requires TxStarts(was, n, base, pcieAt) && TxTold(was, infoWas, info, pcieAt)
    requires base + TxTotal(was, n) < TWO_32
    requires forall i :: 0 <= i < n ==> was[i].WellFormed()
    ensures at[n] == pcieAt[n] == base + TxTotal(was, n)
    ensures forall i :: 0 <= i < n && !was[i].Empty() ==> now[i].WellFormed() && TxEqual(now[i], info[i])
  {
    TxStartsTotal(was, base, at, n);
    TxStartsTotal(was, base, pcieAt, n);
    forall i | 0 <= i < n && !was[i].Empty()
      ensures now[i].WellFormed() && TxEqual(now[i], info[i])
    {
      TxEqualAt(was, now, base, at, infoWas, info, pcieAt, n, i);
    }
  }

  /** Where a train starts does not depend on who computes it, and its footprint ends inside the total. */
  lemma RxStartExact(table: seq<RxTrain>, base: nat, at: seq<nat>, n: nat, i: nat)
    requires RxStarts(table, n, base, at) && i < n
    ensures at[i] == base + RxTotal(table, i)
    ensures at[i] + table[i].Footprint() == at[i + 1] <= base + RxTotal(table, n)
  {
    RxStartsTotal(table, base, at, i);
    RxStartsTotal(table, base, at, i + 1);
    RxTotalGrows(table, i + 1, n);
  }

  lemma RxEqualAt(was: seq<RxTrain>, now: seq<RxTrain>, base: nat, at: seq<nat>,
                  infoWas: seq<CarInfo>, info: seq<CarInfo>, pcieAt: seq<nat>, n: nat, i: nat)
    requires RxStarts(was, n, base, at) && RxPlaced(was, now, at)
    requires RxStarts(was, n, base, pcieAt) && RxTold(was, infoWas, info, pcieAt)
    requires base + RxTotal(was, n) < TWO_32 && i < n && was[i].WellFormed() && was[i].Len() != 0
    ensures now[i].WellFormed() && now[i].num > 0 && RxEqual(now[i], info[i])
  {
    RxStartExact(was, base, at, n, i);
    RxStartExact(was, base, pcieAt, n, i);
    RxTrainEqual(was[i], infoWas[i], at[i]);
    assert now[i] == PlaceRx(was[i], at[i]) && info[i] == RxInfo(was[i], infoWas[i], pcieAt[i]);
  }

  lemma RxAllocatorsEqual(was: seq<RxTrain>, now: seq<RxTrain>, base: nat, at: seq<nat>,
                          infoWas: seq<CarInfo>, info: seq<CarInfo>, pcieAt: seq<nat>, n: nat)
    requires RxStarts(was, n, base, at) && RxPlaced(was, now, at)
    requires RxStarts(was, n, base, pcieAt) && RxTold(was, infoWas, info, pcieAt)
    requires base + RxTotal(was, n) < TWO_32
    requires forall i :: 0 <= i < n ==> was[i].WellFormed()
    ensures at[n] == pcieAt[n] == base + RxTotal(was, n)
    ensures forall i :: 0 <= i < n && was[i].Len() != 0 ==>
      now[i].WellFormed() && now[i].num > 0 && RxEqual(now[i], info[i])
  {
    RxStartsTotal(was, base, at, n);
    RxStartsTotal(was, base, pcieAt, n);
    forall i | 0 <= i < n && was[i].Len() != 0
      ensures now[i].WellFormed() && now[i].num > 0 && RxEqual(now[i], info[i])
    {
      RxEqualAt(was, now, base, at, infoWas, info, pcieAt, n, i);
    }
  }

  // ---------------------------------------------------------------- addresses outright

  /** Car `j` of a placed transmit train, byte for byte: the header, two banks of small cars, two of big ones. */
  lemma TxCarAddresses(t: TxTrain, at: nat, j: nat)
    requires t.WellFormed() && (t.numS * t.sizeS != 0 || t.numB * t.sizeB != 0) && at + t.Footprint() < TWO_64
    ensures var p, big := PlaceTx(t, at), at + 128 + 2 * (t.numS * t.sizeS);
      && p.WellFormed() && p.header == at
      && (j < t.numS ==> p.s0[j] == at + 128 + t.sizeS * j && p.s1[j] == at + 128 + t.numS * t.sizeS + t.sizeS * j)
      && (j < t.numB ==> p.b0[j] == big + t.sizeB * j && p.b1[j] == big + t.numB * t.sizeB + t.sizeB * j)
  {
    var s := at + TRAIN_HEADER_LEN;
    var b := s + 2 * t.LenS();
    NoWrap(at);
    if j < t.numS {
      CarFits(t.sizeS, j, t.numS, s, t.Footprint() + at - s - t.LenS());
      CarFits(t.sizeS, j, t.numS, s + t.LenS(), t.Footprint() + at - s - t.LenS());
    }
    if j < t.numB {
      CarFits(t.sizeB, j, t.numB, b, t.LenB());
      CarFits(t.sizeB, j, t.numB, b + t.LenB(), t.LenB());
    }
  }

  lemma CarFits(size: nat, j: nat, n: nat, at: nat, room: nat)
    requires j < n && n * size <= room && at + room < TWO_64
    ensures (at + size * j) % TWO_64 == at + size * j
  {
    ProductGrows(size, j, n);
    NoWrap(at + size * j);
  }

  /** Pointers behind the cars of a train, and everything that is not a pointer, are left alone. */
  lemma TxPlacingKeeps(t: TxTrain, at: nat, j: nat)
    requires t.WellFormed() && j < 16
    ensures var p := PlaceTx(t, at);
      && (p.numS, p.numB, p.sizeS, p.sizeB) == (t.numS, t.numB, t.sizeS, t.sizeB)
      && |p.s0| == |p.s1| == |p.b0| == |p.b1| == 16
      && (j >= t.numS ==> p.s0[j] == t.s0[j] && p.s1[j] == t.s1[j])
      && (j >= t.numB ==> p.b0[j] == t.b0[j] && p.b1[j] == t.b1[j])
      && (t.numS * t.sizeS == 0 && t.numB * t.sizeB == 0 ==> p == t)
  {}

  lemma RxCarAddresses(t: RxTrain, at: nat, j: nat)
    requires t.WellFormed() && t.num * t.size != 0 && at + t.Footprint() < TWO_64 && j < t.num
    ensures var p := PlaceRx(t, at);
      && p.WellFormed() && p.header == at
      && p.car0[j] == at + 128 + t.size * j && p.car1[j] == at + 128 + t.num * t.size + t.size * j
  {
    var c := at + TRAIN_HEADER_LEN;
    assert t.Len() == t.num * t.size;
    NoWrap(at);
    CarFits(t.size, j, t.num, c, t.Len());
    CarFits(t.size, j, t.num, c + t.Len(), t.Len());
  }

  lemma RxPlacingKeeps(t: RxTrain, at: nat, j: nat)
    requires t.WellFormed() && j < 16
    ensures var p := PlaceRx(t, at);
      && p.num == t.num && p.size == t.size && |p.car0| == |p.car1| == 16
      && (j >= t.num ==> p.car0[j] == t.car0[j] && p.car1[j] == t.car1[j])
      && (t.num * t.size == 0 ==> p == t)
  {}

  /** The interrupt number and the time in what the FPGA is told are not the allocators' business. */
  lemma InfoKeepsTheRest(tx: TxTrain, rx: RxTrain, info: CarInfo, at: nat)
    ensures TxInfo(tx, info, at).irqNum == info.irqNum && TxInfo(tx, info, at).time == info.time
    ensures RxInfo(rx, info, at).irqNum == info.irqNum && RxInfo(rx, info, at).time == info.time
  {}

  /** The kind announced for a receive train: big cars exactly if they are of 2048 bytes. */
  lemma RxKindIff(t: RxTrain, info: CarInfo, at: nat)
    requires t.num * t.size != 0 && at + t.Footprint() < TWO_32
    ensures var i := RxInfo(t, info, at);
      && i.header == at
      && (if t.size == 2048 then i.s0 == i.s1 == 0 && i.b0 == at + 128 && i.b1 == at + 128 + t.num * t.size
          else i.b0 == i.b1 == 0 && i.s0 == at + 128 && i.s1 == at + 128 + t.num * t.size)
  {
    assert t.Len() == t.num * t.size;
    NoWrapEither(at);
    NoWrapEither(at + 128);
    NoWrapEither(at + 128 + t.Len());
  }

  // ---------------------------------------------------------------- both allocators on one slot

  /** What the FPGA is told of a train does not depend on its RAM pointers, placed or not. */
  lemma TxInfoOfPlaced(t: TxTrain, ram: nat, info: CarInfo, pcie: nat)
    ensures PlaceTx(t, ram).Footprint() == t.Footprint()
    ensures TxInfo(PlaceTx(t, ram), info, pcie) == TxInfo(t, info, pcie)
  {}

  lemma RxInfoOfPlaced(t: RxTrain, ram: nat, info: CarInfo, pcie: nat)
    ensures PlaceRx(t, ram).Footprint() == t.Footprint()
    ensures RxInfo(PlaceRx(t, ram), info, pcie) == RxInfo(t, info, pcie)
  {}

  /** So the PCIe allocator run on the placed table does what it does on the table before. */
  lemma TxToldOfPlaced(was: seq<TxTrain>, now: seq<TxTrain>, ramAt: seq<nat>,
                       infoWas: seq<CarInfo>, info: seq<CarInfo>, pcie: nat, pcieAt: seq<nat>, n: nat)
    requires |ramAt| == n + 1 && TxPlaced(was, now, ramAt)
    requires TxStarts(now, n, pcie, pcieAt) && TxTold(now, infoWas, info, pcieAt)
    ensures TxStarts(was, n, pcie, pcieAt) && TxTold(was, infoWas, info, pcieAt)
  {
    forall i {:trigger now[i]} | 0 <= i < n
      ensures now[i].Footprint() == was[i].Footprint()
      ensures TxInfo(now[i], infoWas[i], pcieAt[i]) == TxInfo(was[i], infoWas[i], pcieAt[i])
    {
      assert now[i] == PlaceTx(was[i], ramAt[i]);
      TxInfoOfPlaced(was[i], ramAt[i], infoWas[i], pcieAt[i]);
    }
    forall i {:trigger pcieAt[i + 1]} | 0 <= i < n ensures pcieAt[i + 1] == pcieAt[i] + was[i].Footprint() {
      assert pcieAt[i + 1] == pcieAt[i] + now[i].Footprint();
    }
  }

  lemma RxToldOfPlaced(was: seq<RxTrain>, now: seq<RxTrain>, ramAt: seq<nat>,
                       infoWas: seq<CarInfo>, info: seq<CarInfo>, pcie: nat, pcieAt: seq<nat>, n: nat)
    requires |ramAt| == n + 1 && RxPlaced(was, now, ramAt)
    requires RxStarts(now, n, pcie, pcieAt) && RxTold(now, infoWas, info, pcieAt)
    ensures RxStarts(was, n, pcie, pcieAt) && RxTold(was, infoWas, info, pcieAt)
  {
    forall i {:trigger now[i]} | 0 <= i < n
      ensures now[i].Footprint() == was[i].Footprint()
      ensures RxInfo(now[i], infoWas[i], pcieAt[i]) == RxInfo(was[i], infoWas[i], pcieAt[i])
    {
      assert now[i] == PlaceRx(was[i], ramAt[i]);
      RxInfoOfPlaced(was[i], ramAt[i], infoWas[i], pcieAt[i]);
    }
    forall i {:trigger pcieAt[i + 1]} | 0 <= i < n ensures pcieAt[i + 1] == pcieAt[i] + was[i].Footprint() {
      assert pcieAt[i + 1] == pcieAt[i] + now[i].Footprint();
    }
  }

  /** All of a table agrees with what the FPGA is told about it; empty trains are left as they were. */
  ghost predicate TxTableAgrees(was: seq<TxTrain>, now: seq<TxTrain>, infoWas: seq<CarInfo>, info: seq<CarInfo>) {
    && |now| == |was| <= |info| == |infoWas| && TxTableWellFormed(now)
    && forall i {:trigger info[i]} :: 0 <= i < |was| ==>
         if was[i].Empty() then now[i] == was[i] && info[i] == infoWas[i] else TxAgrees(now[i], info[i])
  }

  ghost predicate RxTableAgrees(was: seq<RxTrain>, now: seq<RxTrain>, infoWas: seq<CarInfo>, info: seq<CarInfo>) {
    && |now| == |was| <= |info| == |infoWas| && RxTableWellFormed(now)
    && forall i {:trigger info[i]} :: 0 <= i < |was| ==>
         if was[i].Len() == 0 then now[i] == was[i] && info[i] == infoWas[i]
         else now[i].num > 0 && RxAgrees(now[i], info[i])
  }

  lemma TxTablesAgree(was: seq<TxTrain>, now: seq<TxTrain>, at: seq<nat>, infoWas: seq<CarInfo>,
                      info: seq<CarInfo>, ramBase: nat, pcieBase: nat, pcieAt: seq<nat>)
    requires TxTableWellFormed(was) && TxTableWellFormed(now) && ramBase % TWO_32 == pcieBase % TWO_32
    requires TxStarts(was, |was|, ramBase, at) && TxPlaced(was, now, at)
    requires TxStarts(now, |was|, pcieBase, pcieAt) && TxTold(now, infoWas, info, pcieAt)
    ensures TxTableAgrees(was, now, infoWas, info)
    ensures (at[|was|] % TWO_64) % TWO_32 == pcieAt[|was|] % TWO_32
  {
    TxToldOfPlaced(was, now, at, infoWas, info, pcieBase, pcieAt, |was|);
    TxAllocatorsAgree(was, now, ramBase, at, infoWas, info, pcieBase, pcieAt, |was|);
  }

  ghost predicate TxTableEqual(was: seq<TxTrain>, now: seq<TxTrain>, info: seq<CarInfo>) {
    && |now| == |was| <= |info|
    && forall i {:trigger info[i]} :: 0 <= i < |was| && !was[i].Empty() ==>
         now[i].WellFormed() && TxEqual(now[i], info[i])
  }

  lemma TxTablesEqual(was: seq<TxTrain>, now: seq<TxTrain>, at: seq<nat>, infoWas: seq<CarInfo>,
                      info: seq<CarInfo>, base: nat, pcieAt: seq<nat>)
    requires TxTableWellFormed(was) && TxStarts(was, |was|, base, at) && TxPlaced(was, now, at)
    requires TxStarts(now, |was|, base, pcieAt) && TxTold(now, infoWas, info, pcieAt)
    requires at[|was|] < TWO_32
    ensures at[|was|] == at[|was|] % TWO_64 == at[|was|] % TWO_32 && TxTableEqual(was, now, info)
  {
    TxStartsTotal(was, base, at, |was|);
    TxToldOfPlaced(was, now, at, infoWas, info, base, pcieAt, |was|);
    TxAllocatorsEqual(was, now, base, at, infoWas, info, pcieAt, |was|);
    NoWrapEither(at[|was|]);
  }

  lemma RxTablesAgree(was: seq<RxTrain>, now: seq<RxTrain>, at: seq<nat>, infoWas: seq<CarInfo>,
                      info: seq<CarInfo>, ramBase: nat, pcieBase: nat, pcieAt: seq<nat>)
    requires RxTableWellFormed(was) && RxTableWellFormed(now) && ramBase % TWO_32 == pcieBase % TWO_32
    requires RxStarts(was, |was|, ramBase, at) && RxPlaced(was, now, at)
    requires RxStarts(now, |was|, pcieBase, pcieAt) && RxTold(now, infoWas, info, pcieAt)
    ensures RxTableAgrees(was, now, infoWas, info)
    ensures at[|was|] % TWO_32 == pcieAt[|was|] % TWO_32
  {
    RxToldOfPlaced(was, now, at, infoWas, info, pcieBase, pcieAt, |was|);
    RxAllocatorsAgree(was, now, ramBase, at, infoWas, info, pcieBase, pcieAt, |was|);
  }

  ghost predicate RxTableEqual(was: seq<RxTrain>, now: seq<RxTrain>, info: seq<CarInfo>) {
    && |now| == |was| <= |info|
    && forall i {:trigger info[i]} :: 0 <= i < |was| && was[i].Len() != 0 ==>
         now[i].WellFormed() && now[i].num > 0 && RxEqual(now[i], info[i])
  }

  lemma RxTablesEqual(was: seq<RxTrain>, now: seq<RxTrain>, at: seq<nat>, infoWas: seq<CarInfo>,
                      info: seq<CarInfo>, base: nat, pcieAt: seq<nat>)
    requires RxTableWellFormed(was) && RxStarts(was, |was|, base, at) && RxPlaced(was, now, at)
    requires RxStarts(now, |was|, base, pcieAt) && RxTold(now, infoWas, info, pcieAt)
    requires at[|was|] < TWO_32
    ensures at[|was|] == at[|was|] % TWO_64 == at[|was|] % TWO_32 && RxTableEqual(was, now, info)
  {
    RxStartsTotal(was, base, at, |was|);
    RxToldOfPlaced(was, now, at, infoWas, info, base, pcieAt, |was|);
    RxAllocatorsEqual(was, now, base, at, infoWas, info, pcieAt, |was|);
    NoWrapEither(at[|was|]);
  }

  /** The TX table of a slot: RAM pointers first, then the addresses for the FPGA, read off the same table. */
  method TxAddrInit(tx: array<TxTrain>, info: array<CarInfo>, ramBase: dword, pcieBase: word)
    returns (ramEnd: dword, pcieEnd: word, ghost at: seq<nat>)
    requires TxTableWellFormed(tx[..]) && tx.Length <= info.Length && ramBase % TWO_32 == pcieBase
    modifies tx, info
    ensures TxTableAgrees(old(tx[..]), tx[..], old(info[..]), info[..])
    ensures ramEnd % TWO_32 == pcieEnd
    ensures TxStarts(old(tx[..]), tx.Length, ramBase, at) && TxPlaced(old(tx[..]), tx[..], at)
    ensures ramEnd == at[tx.Length] % TWO_64
    ensures ramBase == pcieBase && at[tx.Length] < TWO_32 ==>
      ramEnd == pcieEnd == at[tx.Length] && TxTableEqual(old(tx[..]), tx[..], info[..])
  {
    ghost var was, infoWas, n := tx[..], info[..], tx.Length;
    ramEnd, at := TxRamAddrInit(tx, tx.Length, ramBase);
    ghost var now, pcieAt := tx[..], [];
    assert info[..] == infoWas;
    pcieEnd, pcieAt := TxPcieAddrInit(info, tx, tx.Length, pcieBase);
    assert tx[..] == now;
    TxPlacedWellFormed(was, now, at);
    TxTablesAgree(was, now, at, infoWas, info[..], ramBase, pcieBase, pcieAt);
    if ramBase == pcieBase && at[n] < TWO_32 {
      TxTablesEqual(was, now, at, infoWas, info[..], ramBase, pcieAt);
    }
  }

  method RxAddrInit(rx: array<RxTrain>, info: array<CarInfo>, ramBase: dword, pcieBase: word)
    returns (ramEnd: word, pcieEnd: word, ghost at: seq<nat>)
    requires RxTableWellFormed(rx[..]) && rx.Length <= info.Length && ramBase % TWO_32 == pcieBase
    modifies rx, info
    ensures RxTableAgrees(old(rx[..]), rx[..], old(info[..]), info[..])
    ensures ramEnd == pcieEnd
    ensures RxStarts(old(rx[..]), rx.Length, ramBase, at) && RxPlaced(old(rx[..]), rx[..], at)
    ensures ramBase == pcieBase && at[rx.Length] < TWO_32 ==>
      ramEnd == pcieEnd == at[rx.Length] && RxTableEqual(old(rx[..]), rx[..], info[..])
  {
    ghost var was, infoWas, n := rx[..], info[..], rx.Length;
    ramEnd, at := RxRamAddrInit(rx, rx.Length, ramBase);
    ghost var now, pcieAt := rx[..], [];
    assert info[..] == infoWas;
    pcieEnd, pcieAt := RxPcieAddrInit(info, rx, rx.Length, pcieBase);
    assert rx[..] == now;
    RxPlacedWellFormed(was, now, at);
    RxTablesAgree(was, now, at, infoWas, info[..], ramBase, pcieBase, pcieAt);
    if ramBase == pcieBase && at[n] < TWO_32 {
      RxTablesEqual(was, now, at, infoWas, info[..], ramBase, pcieAt);
    }
  }

  /**
   A whole slot through all four allocators, each receive table chained where its transmit table ended:
   what the FPGA is told about every train is where the CPU finds it.
   */
  method SlotAddrInit(tx: array<TxTrain>, rx: array<RxTrain>, txInfo: array<CarInfo>, rxInfo: array<CarInfo>,
                      ramBase: word, pcieBase: word)
    requires TxTableWellFormed(tx[..]) && RxTableWellFormed(rx[..]) && txInfo != rxInfo
    requires tx.Length <= txInfo.Length && rx.Length <= rxInfo.Length && ramBase == pcieBase
    modifies tx, rx, txInfo, rxInfo
    ensures TxTableAgrees(old(tx[..]), tx[..], old(txInfo[..]), txInfo[..])
    ensures RxTableAgrees(old(rx[..]), rx[..], old(rxInfo[..]), rxInfo[..])
    ensures ramBase + TxTotal(old(tx[..]), tx.Length) + RxTotal(old(rx[..]), rx.Length) < TWO_32 ==>
      TxTableEqual(old(tx[..]), tx[..], txInfo[..]) && RxTableEqual(old(rx[..]), rx[..], rxInfo[..])
    ensures var end := ramBase + TxTotal(old(tx[..]), tx.Length) + RxTotal(old(rx[..]), rx.Length);
      end < TWO_64 && TxTableWellFormed(tx[..]) && RxTableWellFormed(rx[..]) ==>
        Packed(TxTableItems(tx[..]) + RxTableItems(rx[..]), ramBase, end)
  {
    ghost var txWas, rxWas, txInfoWas, rxInfoWas := tx[..], rx[..], txInfo[..], rxInfo[..];
    var ramEnd, pcieEnd, txAt := TxAddrInit(tx, txInfo, ramBase, pcieBase);
    ghost var txNow, told := tx[..], txInfo[..];
    assert rx[..] == rxWas && rxInfo[..] == rxInfoWas;
    var rxRamEnd, rxPcieEnd, rxAt := RxAddrInit(rx, rxInfo, ramEnd, pcieEnd);
    assert tx[..] == txNow && txInfo[..] == told;
    ghost var slotEnd := ramBase + TxTotal(txWas, |txWas|) + RxTotal(rxWas, |rxWas|);
    if slotEnd < TWO_64 {
      SlotPlaced(txWas, txNow, txAt, rxWas, rx[..], rxAt, ramBase, ramEnd, slotEnd);
      SlotEnds(txWas, txAt, rxWas, rxAt, ramBase, ramEnd, slotEnd);
      TxStartsTotal(txWas, ramBase, txAt, |txWas|);
    }
  }
}
