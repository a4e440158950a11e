/**
 The FPGA's 8-bit error counters, reported one at a time and unwrapped into 32-bit totals per slot.
 The last byte seen is remembered per port, but not per slot.
 */
module MonitorCounters {
  import opened Words

  const SLOTS := 4
  const GEN_ENTRIES := 128
  const PORT_ENTRIES := 32

  datatype Group = Gen | Meth | Geth | Aurora | Switch | Ft3

  /** One monitor entry of a slot. The optical power in decibels, derived from `pwr`, is not part of this model. */
  datatype Entry = Entry(slotId: half, errCode: half, errCnt: word, pwr: half, oldErrCnt: word)

  /** The unwrapping state of a port. */
  datatype Local = Local(delta: word, last: word)

  datatype Key = Key(group: Group, slot: nat, idx: nat)
  datatype Port = Port(group: Group, idx: nat)

  /** The feedback fields of a received header. */
  datatype Report = Report(slotId: byte, portId: byte, data0: byte, data1: byte, data2: byte, data3: byte, data4: byte)
  {
    function DataId(): half { data1 * TWO_8 + data0 }

    function ErrCnt(): byte { data2 }

    function Power(): half { data4 * TWO_8 + data3 }
  }

  /** What a report is about. */
  datatype Target = Nothing | Code(key: Key) | Status(key: Key) | Counter(key: Key) | PowerOnly(key: Key)

  /** C division: towards zero. */
  function TruncDiv(a: int, b: nat): int
    requires b > 0
  {
    if a >= 0 then a / b else -(-a / b)
  }

  /** The port group that the hundreds of an identifier select; `Gen` if none. */
  function PortGroup(dataId: half): Group {
    var c := TruncDiv(dataId - 1000, 100);
    if c == 0 then Meth else if c == 1 then Geth else if c == 2 then Aurora
    else if c == 3 then Switch else if c == 4 then Ft3 else Gen
  }

  function FirstId(g: Group): nat {
    match g
    case Meth => 1001
    case Geth => 1101
    case Aurora => 1201
    case Switch => 1301
    case Ft3 => 1401
    case Gen => 1
  }

  /** The 8-bit entry index the code computes for a port identifier. */
  function PortIdx(dataId: half): byte {
    TruncDiv(dataId - FirstId(PortGroup(dataId)), 2) % TWO_8
  }

  /** Which entry a report updates, and how. Switch ports are not told apart by slot. */
  function Decode(r: Report): Target {
    var id := r.DataId();
    if r.slotId >= SLOTS then Nothing
    else if r.portId == 0xFF then
      if 1 <= id <= 64 then
        var key := Key(Gen, r.slotId, (id - 1) / 2);
        if id % 2 == 1 then Code(key) else Counter(key)
      else if 500 <= id <= 564 then PowerOnly(Key(Gen, r.slotId, (id - 500 + 64) % TWO_8))
      else Nothing
    else
      var g := PortGroup(id);
      if g == Gen then Nothing
      else
        var key := Key(g, if g == Switch then 0 else r.slotId, PortIdx(id));
        if id % 2 == 0 then Counter(key) else if g == Switch then Code(key) else Status(key)
  }

  /** The tables have an entry for what the report names. */
  predicate InBounds(r: Report) {
    match Decode(r)
    case Nothing => true
    case t => t.key.idx < if t.key.group == Gen then GEN_ENTRIES else PORT_ENTRIES
  }

  /**
   The identifiers with an entry: for a port, the first 65 of its hundred; for the general reports, all but
   564, whose index is one past the end of its slot. Outside those ranges the code relies on the sender.
   */
  lemma InBoundsIff(r: Report)
    requires r.slotId < SLOTS
    ensures var id := r.DataId();
      InBounds(r) <==>
        if r.portId == 0xFF then id != 564
        else !(901 <= id < 1500) || (id >= 1000 && id % 100 <= 64)
  {
    var id := r.DataId();
    if r.portId != 0xFF && 901 <= id < 1500 {
      PortIdxInBoundsIff(id);
    }
  }

  lemma PortIdxInBoundsIff(id: half)
    requires 901 <= id < 1500
    ensures PortGroup(id) != Gen
    ensures PortIdx(id) < PORT_ENTRIES <==> id >= 1000 && id % 100 <= 64
  {
    var c := if id < 1000 then 0 else id / 100 - 10;
    assert TruncDiv(id - 1000, 100) == c && FirstId(PortGroup(id)) == 1001 + 100 * c;
    var x := id - 1001 - 100 * c;
    assert -100 <= x < 99 && PortIdx(id) == TruncDiv(x, 2) % TWO_8;
    if id >= 1000 {
      assert x == id % 100 - 1;
    }
  }

  /** Port `i` of a group reports its status under the group's identifier 2i, and its errors under the next one. */
  lemma PortIdentifiers(r: Report, g: Group, i: nat)
    requires r.slotId < SLOTS && r.portId != 0xFF && g != Gen && i < PORT_ENTRIES
    ensures var key := Key(g, if g == Switch then 0 else r.slotId, i);
      && (r.DataId() == FirstId(g) + 2 * i ==> Decode(r) == if g == Switch then Code(key) else Status(key))
      && (r.DataId() == FirstId(g) + 2 * i + 1 ==> Decode(r) == Counter(key))
  {
    var id := r.DataId();
    if FirstId(g) + 2 * i <= id <= FirstId(g) + 2 * i + 1 {
      assert (id - 1000) / 100 == (FirstId(g) - 1001) / 100;
      assert PortGroup(id) == g && (id - FirstId(g)) / 2 == i;
    }
  }

  /** The same for the general reports: 32 codes and counters, and 64 optical powers behind 64 other entries. */
  lemma GeneralIdentifiers(r: Report, i: nat)
    requires r.slotId < SLOTS && r.portId == 0xFF
    ensures i < 32 && r.DataId() == 2 * i + 1 ==> Decode(r) == Code(Key(Gen, r.slotId, i))
    ensures i < 32 && r.DataId() == 2 * i + 2 ==> Decode(r) == Counter(Key(Gen, r.slotId, i))
    ensures i < 64 && r.DataId() == 500 + i ==> Decode(r) == PowerOnly(Key(Gen, r.slotId, 64 + i))
  {
    assert (2 * i + 1 - 1) / 2 == i && (2 * i + 2 - 1) / 2 == i;
  }

  // ---------------------------------------------------------------- the update

  datatype Monitors = Monitors(shared: map<Key, Entry>, local: map<Port, Local>) {
    /** An entry never touched is still zero. */
    function At(k: Key): Entry {
      if k in shared then shared[k] else Entry(0, 0, 0, 0, 0)
    }

    function LocalAt(p: Port): Local {
      if p in local then local[p] else Local(0, 0)
    }
  }

  /** The 8-bit difference of two counter readings. */
  function Delta(now: word, before: word): byte {
    (now % TWO_8 - before % TWO_8) % TWO_8
  }

  function Updated(m: Monitors, r: Report): Monitors {
    match Decode(r)
    case Nothing => m
    case Code(k) => m.(shared := m.shared[k := m.At(k).(slotId := r.slotId, errCode := r.ErrCnt())])
    case Status(k) => m.(shared := m.shared[k := m.At(k).(slotId := r.slotId, errCode := r.ErrCnt(), pwr := r.Power())])
    case PowerOnly(k) => m.(shared := m.shared[k := m.At(k).(pwr := r.Power())])
    case Counter(k) =>
      var delta := Delta(r.ErrCnt(), m.LocalAt(Port(k.group, k.idx)).last);
      Monitors(
        m.shared[k := m.At(k).(slotId := r.slotId, errCnt := (m.At(k).errCnt + delta) % TWO_32,
                               oldErrCnt := r.ErrCnt())],
        m.local[Port(k.group, k.idx) := Local(delta, r.ErrCnt())])
  }

  class Monitor {
    var shared: map<Key, Entry>
    var local: map<Port, Local>

    ghost function State(): Monitors
      reads this
    {
      Monitors(shared, local)
    }

    constructor ()
      ensures State() == Monitors(map[], map[])
    {
      shared, local := map[], map[];
    }

    function Get(k: Key): Entry
      reads this
    {
      if k in shared then shared[k] else Entry(0, 0, 0, 0, 0)
    }

    method Update(r: Report)
      requires InBounds(r)
      modifies this
      ensures State() == Updated(old(State()), r)
    {
      if r.slotId < SLOTS {
        if r.portId == 0xFF {
          UpdateGeneral(r);
        } else {
          UpdatePort(r);
        }
      }
    }

    method UpdateGeneral(r: Report)
      requires r.slotId < SLOTS && r.portId == 0xFF
      modifies this
      ensures State() == Updated(old(State()), r)
    {
      var id := r.data1 * TWO_8 + r.data0;
      if id >= 1 && id <= 64 {
        var k := Key(Gen, r.slotId, (id - 1) / 2);
        if id % 2 == 1 {
          SetStatus(k, r.slotId, r.data2, false, 0);
        } else {
          CountErrors(k, r.slotId, r.data2);
        }
      } else if id >= 500 && id <= 564 {
        var k := Key(Gen, r.slotId, (id - 500 + 64) % TWO_8);
        shared := shared[k := Get(k).(pwr := r.data4 * TWO_8 + r.data3)];
      }
    }

    /** The five port groups, which the code handles alike. */
    method UpdatePort(r: Report)
      requires r.slotId < SLOTS && r.portId != 0xFF
      modifies this
      ensures State() == Updated(old(State()), r)
    {
      var id := r.data1 * TWO_8 + r.data0;
      var g := PortGroup(id);
      if g == Gen {
        return;
      }
      var k := Key(g, if g == Switch then 0 else r.slotId, PortIdx(id));
      if id % 2 == 0 {
        CountErrors(k, r.slotId, r.data2);
      } else {
        SetStatus(k, r.slotId, r.data2, g != Switch, r.data4 * TWO_8 + r.data3);
      }
    }

    method SetStatus(k: Key, slotId: byte, errCode: byte, hasPower: bool, pwr: half)
      modifies this
      ensures local == old(local)
      ensures var e := old(State()).At(k).(slotId := slotId, errCode := errCode);
        shared == old(shared)[k := if hasPower then e.(pwr := pwr) else e]
    {
      shared := shared[k := Get(k).(slotId := slotId)];
      shared := shared[k := Get(k).(errCode := errCode)];
      if hasPower {
        shared := shared[k := Get(k).(pwr := pwr)];
      }
    }

    /** Adds what the 8-bit counter has gained since the last report of this port, by whichever slot. */
    method CountErrors(k: Key, slotId: byte, errCnt: byte)
      modifies this
      ensures var p := Port(k.group, k.idx);
        var delta := Delta(errCnt, old(State()).LocalAt(p).last);
        var e := old(State()).At(k);
        && local == old(local)[p := Local(delta, errCnt)]
        && shared == old(shared)[k := e.(slotId := slotId, errCnt := (e.errCnt + delta) % TWO_32, oldErrCnt := errCnt)]
    {
      var p := Port(k.group, k.idx);
      shared := shared[k := Get(k).(slotId := slotId)];
      var before := if p in local then local[p].last else 0;
      var delta := (errCnt % TWO_8 - before % TWO_8) % TWO_8;
      local := local[p := Local(delta, before)];
      shared := shared[k := shared[k].(errCnt := (shared[k].errCnt + delta) % TWO_32)];
      local := local[p := Local(delta, errCnt)];
      shared := shared[k := shared[k].(oldErrCnt := local[p].last)];
    }
  }

  // ---------------------------------------------------------------- what each report does, by its bytes

  /** A report with the identifier `first` + `k` in its bytes 0 and 1. */
  predicate Names(r: Report, first: nat, k: nat) {
    r.data1 * 0x100 + r.data0 == first + k
  }

  /** A port status of any group but the switch stores slot, code and optical power. */
  lemma StatusStores(m: Monitors, r: Report, g: Group, i: nat)
    requires r.slotId < 4 && r.portId != 0xFF && g in {Meth, Geth, Aurora, Ft3} && i < 32
    requires Names(r, if g == Meth then 1001 else if g == Geth then 1101 else if g == Aurora then 1201 else 1401, 2 * i)
    ensures var k := Key(g, r.slotId, i);
      Updated(m, r) == m.(shared := m.shared[k :=
        m.At(k).(slotId := r.slotId, errCode := r.data2, pwr := r.data4 * 0x100 + r.data3)])
  {
    PortIdentifiers(r, g, i);
  }

  /** A switch status stores slot and code, in the one table all slots share. */
  lemma SwitchStores(m: Monitors, r: Report, i: nat)
    requires r.slotId < 4 && r.portId != 0xFF && i < 32 && Names(r, 1301, 2 * i)
    ensures var k := Key(Switch, 0, i);
      Updated(m, r) == m.(shared := m.shared[k := m.At(k).(slotId := r.slotId, errCode := r.data2)])
  {
    PortIdentifiers(r, Switch, i);
  }

  /** A general code stores slot and code, and the identifiers from 500 on the optical power alone. */
  lemma GeneralStores(m: Monitors, r: Report, i: nat)
    requires r.slotId < 4 && r.portId == 0xFF
    ensures i < 32 && Names(r, 1, 2 * i) ==>
      var k := Key(Gen, r.slotId, i);
      Updated(m, r) == m.(shared := m.shared[k := m.At(k).(slotId := r.slotId, errCode := r.data2)])
    ensures i < 64 && Names(r, 500, i) ==>
      var k := Key(Gen, r.slotId, 64 + i);
      Updated(m, r) == m.(shared := m.shared[k := m.At(k).(pwr := r.data4 * 0x100 + r.data3)])
  {
    GeneralIdentifiers(r, i);
  }

  /** A counter report of entry `k`: what its total gains, and what is remembered, for the entry and for the port. */
  predicate CountStored(m: Monitors, n: Monitors, r: Report, k: Key) {
    var port, e := Port(k.group, k.idx), m.At(k);
    var delta := (r.data2 - m.LocalAt(port).last) % 0x100;
    && n.local == m.local[port := Local(delta, r.data2)]
    && n.shared == m.shared[k := e.(slotId := r.slotId, errCnt := (e.errCnt + delta) % 0x1_0000_0000,
                                    oldErrCnt := r.data2)]
  }

  lemma DeltaIs(now: byte, last: word)
    ensures Delta(now, last) == (now - last) % 0x100
  {
    var q := last / 0x100;
    assert last == q * 0x100 + last % 0x100;
    assert (now - last) % 0x100 == (now - last % 0x100) % 0x100;
  }

  /** Every counter identifier, by its group: the one after the status of its port. */
  lemma CounterStores(m: Monitors, r: Report, g: Group, i: nat)
    requires r.slotId < 4 && i < 32
    requires g == Gen ==> r.portId == 0xFF && Names(r, 2, 2 * i)
    requires g != Gen ==> r.portId != 0xFF
    requires g == Meth ==> Names(r, 1002, 2 * i)
    requires g == Geth ==> Names(r, 1102, 2 * i)
    requires g == Aurora ==> Names(r, 1202, 2 * i)
    requires g == Switch ==> Names(r, 1302, 2 * i)
    requires g == Ft3 ==> Names(r, 1402, 2 * i)
    ensures CountStored(m, Updated(m, r), r, Key(g, if g == Switch then 0 else r.slotId, i))
  {
    if g == Gen {
      GeneralIdentifiers(r, i);
    } else {
      PortIdentifiers(r, g, i);
    }
    DeltaIs(r.data2, m.LocalAt(Port(g, i)).last);
  }

  /** A report of no known slot, or with an identifier of none of these ranges, does nothing. */
  lemma OthersIgnored(m: Monitors, r: Report)
    requires
      || r.slotId >= 4
      || (r.portId == 0xFF && !(1 <= r.data1 * 0x100 + r.data0 <= 64) && !(500 <= r.data1 * 0x100 + r.data0 <= 564))
      || (r.portId != 0xFF && !(900 < r.data1 * 0x100 + r.data0 < 1500))
    ensures Updated(m, r) == m
  {}

  // ---------------------------------------------------------------- single reports

  /** A report touches one entry and one port's unwrapping state, and leaves everything else alone. */
  lemma OthersUnchanged(m: Monitors, r: Report)
    ensures var n := Updated(m, r);
      && (forall k: Key :: (Decode(r).Nothing? || k != Decode(r).key) ==> n.At(k) == m.At(k))
      && (forall p: Port :: !(Decode(r).Counter? && p == Port(Decode(r).key.group, Decode(r).key.idx)) ==>
           n.LocalAt(p) == m.LocalAt(p))
  {}

  /**
   One counter report of a slot whose total is exact: the total stays exact just when the remembered
   byte of the port is this slot's own last byte, which the entry itself records.
   */
  lemma ExactAfterIff(m: Monitors, r: Report, total: nat, next: nat)
    requires Decode(r).Counter? && total <= next < total + TWO_8 && r.ErrCnt() == next % TWO_8
    requires var e := m.At(Decode(r).key); e.errCnt == total % TWO_32 && e.oldErrCnt % TWO_8 == total % TWO_8
    ensures var k := Decode(r).key;
      Updated(m, r).At(k).errCnt == next % TWO_32
      <==> m.LocalAt(Port(k.group, k.idx)).last % TWO_8 == m.At(k).oldErrCnt % TWO_8
  {
    var k := Decode(r).key;
    DeltaIsGrowthIff(total, next, m.LocalAt(Port(k.group, k.idx)).last);
    SmallStep(total, next - total, Delta(r.ErrCnt(), m.LocalAt(Port(k.group, k.idx)).last));
  }

  lemma DeltaIsGrowthIff(total: nat, next: nat, last: word)
    requires total <= next < total + TWO_8
    ensures Delta(next % TWO_8, last) == next - total <==> last % TWO_8 == total % TWO_8
  {}

  lemma SmallStep(total: nat, growth: nat, delta: nat)
    requires growth < TWO_8 && delta < TWO_8
    ensures (total % TWO_32 + delta) % TWO_32 == (total + growth) % TWO_32 <==> delta == growth
  {
    Wrap32Add(total, delta);
  }

  // ---------------------------------------------------------------- whole runs

  /** The monitors after a sequence of reports, from zeroed memory. */
  function Run(reports: seq<Report>): Monitors {
    if reports == [] then Monitors(map[], map[]) else Updated(Run(reports[..|reports| - 1]), reports[|reports| - 1])
  }

  predicate Counts(r: Report, g: Group, idx: nat) {
    Decode(r).Counter? && Decode(r).key.group == g && Decode(r).key.idx == idx
  }

  /** The byte last reported for a port, by any slot. */
  function LastByte(reports: seq<Report>, g: Group, idx: nat): byte {
    if reports == [] then 0
    else if Counts(reports[|reports| - 1], g, idx) then reports[|reports| - 1].ErrCnt()
    else LastByte(reports[..|reports| - 1], g, idx)
  }

  function SlotSum(m: Monitors, g: Group, idx: nat): nat {
    m.At(Key(g, 0, idx)).errCnt + m.At(Key(g, 1, idx)).errCnt
    + m.At(Key(g, 2, idx)).errCnt + m.At(Key(g, 3, idx)).errCnt
  }

  /** Adding a delta to one of four counters, wrapping at 2^32, adds it to their sum modulo 256. */
  lemma SumGains(a: word, others: nat, delta: nat)
    requires delta < TWO_8
    ensures ((a + delta) % TWO_32 + others) % TWO_8 == (a + others + delta) % TWO_8
  {
    var x := a + delta;
    assert x % TWO_32 == if x < TWO_32 then x else x - TWO_32;
    DropTurns(x + others, if x < TWO_32 then 0 else 0x100_0000);
  }

  lemma DropTurns(x: nat, k: nat)
    requires k == 0 || (k == 0x100_0000 && x >= k * TWO_8)
    ensures (x - k * TWO_8) % TWO_8 == x % TWO_8
  {}

  lemma DeltaTelescopes(sum: nat, now: byte, last: byte)
    requires sum % TWO_8 == last
    ensures (sum + Delta(now, last)) % TWO_8 == now
  {
    var turns := sum / TWO_8 + if now >= last then 0 else 1;
    assert Delta(now, last) == now - last + if now >= last then 0 else TWO_8;
    ModUnique(sum + Delta(now, last), TWO_8, turns, now);
  }

  /** Counter reports name one of the four slots. */
  lemma CounterSlot(r: Report)
    requires Decode(r).Counter?
    ensures Decode(r).key.slot < SLOTS
  {}

  lemma TelescopeStep(m: Monitors, r: Report, g: Group, idx: nat, last: byte)
    requires SlotSum(m, g, idx) % TWO_8 == last == m.LocalAt(Port(g, idx)).last
    ensures var n := Updated(m, r);
      var now := if Counts(r, g, idx) then r.ErrCnt() else last;
      SlotSum(n, g, idx) % TWO_8 == now == n.LocalAt(Port(g, idx)).last
  {
    OthersKeepCount(m, r);
    if Counts(r, g, idx) {
      CounterSlot(r);
      var k, n, delta := Decode(r).key, Updated(m, r), Delta(r.ErrCnt(), last);
      var others := SlotSum(m, g, idx) - m.At(k).errCnt;
      SumGains(m.At(k).errCnt, others, delta);
      DeltaTelescopes(SlotSum(m, g, idx), r.ErrCnt(), last);
      assert SlotSum(n, g, idx) == n.At(k).errCnt + others;
    }
  }

  /** Only a counter report changes a total, and only that of its own entry. */
  lemma OthersKeepCount(m: Monitors, r: Report)
    ensures var n := Updated(m, r);
      forall k: Key :: !(Decode(r).Counter? && Decode(r).key == k) ==> n.At(k).errCnt == m.At(k).errCnt
  {}

  /**
   Over any sequence of in-range reports, from whatever slots: the totals of a port, added over the
   slots, agree modulo 256 with the byte reported last.
   */
  lemma {:induction false} TotalsTelescope(reports: seq<Report>, g: Group, idx: nat)
    requires forall i :: 0 <= i < |reports| ==> InBounds(reports[i])
    ensures SlotSum(Run(reports), g, idx) % TWO_8 == LastByte(reports, g, idx)
    ensures Run(reports).LocalAt(Port(g, idx)).last == LastByte(reports, g, idx)
  {
    if reports != [] {
      var before := reports[..|reports| - 1];
      TotalsTelescope(before, g, idx);
      TelescopeStep(Run(before), reports[|reports| - 1], g, idx, LastByte(before, g, idx));
    }
  }

  /** The true count behind the last counter report of an entry; `totals` gives it for each report. */
  function LastTotal(reports: seq<Report>, totals: seq<nat>, k: Key): nat
    requires |reports| == |totals|
  {
    if reports == [] then 0
    else
      var n := |reports| - 1;
      if Counts(reports[n], k.group, k.idx) then totals[n] else LastTotal(reports[..n], totals[..n], k)
  }

  /** Only entry `k` reports its port, and every time by the low byte of a true count that grew by less than 256. */
  predicate Tracks(reports: seq<Report>, totals: seq<nat>, k: Key)
    requires |reports| == |totals|
  {
    reports == [] ||
    var n := |reports| - 1;
    && Tracks(reports[..n], totals[..n], k)
    && (Counts(reports[n], k.group, k.idx) ==>
          && Decode(reports[n]).key == k && reports[n].ErrCnt() == totals[n] % TWO_8
          && LastTotal(reports[..n], totals[..n], k) <= totals[n] < LastTotal(reports[..n], totals[..n], k) + TWO_8)
  }

  /** Then the 32-bit total is the true count, whatever else is reported in between. */
  lemma {:induction false} SingleSlotIsExact(reports: seq<Report>, totals: seq<nat>, k: Key)
    requires |reports| == |totals| && Tracks(reports, totals, k)
    ensures var m, total := Run(reports), LastTotal(reports, totals, k);
      && m.At(k).errCnt == total % TWO_32 && m.At(k).oldErrCnt == total % TWO_8
      && m.LocalAt(Port(k.group, k.idx)).last == total % TWO_8
  {
    if reports != [] {
      var n := |reports| - 1;
      var before, r := Run(reports[..n]), reports[n];
      SingleSlotIsExact(reports[..n], totals[..n], k);
      if Counts(r, k.group, k.idx) {
        var total := LastTotal(reports[..n], totals[..n], k);
        assert (total % TWO_8) % TWO_8 == total % TWO_8;
        ExactAfterIff(before, r, total, totals[n]);
      } else {
        OthersUnchanged(before, r);
        OthersKeepCount(before, r);
      }
    }
  }

  /** The true count behind the last report of entry `k` itself. */
  function OwnTotal(reports: seq<Report>, totals: seq<nat>, k: Key, n: nat): nat
    requires n <= |reports| == |totals|
  {
    if n == 0 then 0
    else if Decode(reports[n - 1]) == Counter(k) then totals[n - 1]
    else OwnTotal(reports, totals, k, n - 1)
  }

  /** Every report of entry `k` carries the low byte of its true count, which has grown by less than 256. */
  predicate Honest(reports: seq<Report>, totals: seq<nat>, k: Key)
    requires |reports| == |totals|
  {
    forall i :: 0 <= i < |reports| && Decode(reports[i]) == Counter(k) ==>
      && reports[i].ErrCnt() == totals[i] % TWO_8
      && OwnTotal(reports, totals, k, i) <= totals[i] < OwnTotal(reports, totals, k, i) + TWO_8
  }

  /** If report `i` is one of the entry, its total is the true count after it. */
  predicate ExactAt(reports: seq<Report>, totals: seq<nat>, k: Key, i: nat)
    requires i < |reports| == |totals|
  {
    Decode(reports[i]) == Counter(k) ==> Run(reports[..i + 1]).At(k).errCnt == totals[i] % TWO_32
  }

  /** If report `i` is one of the entry, the byte last reported for the port before it, by any slot, is its own. */
  predicate OwnByteAt(reports: seq<Report>, totals: seq<nat>, k: Key, i: nat)
    requires i < |reports| == |totals|
  {
    Decode(reports[i]) == Counter(k) ==>
      LastByte(reports[..i], k.group, k.idx) == OwnTotal(reports, totals, k, i) % TWO_8
  }

  predicate ExactUpTo(reports: seq<Report>, totals: seq<nat>, k: Key, n: nat)
    requires n <= |reports| == |totals|
  {
    n == 0 || (ExactUpTo(reports, totals, k, n - 1) && ExactAt(reports, totals, k, n - 1))
  }

  predicate OwnByteUpTo(reports: seq<Report>, totals: seq<nat>, k: Key, n: nat)
    requires n <= |reports| == |totals|
  {
    n == 0 || (OwnByteUpTo(reports, totals, k, n - 1) && OwnByteAt(reports, totals, k, n - 1))
  }

  lemma RunNext(reports: seq<Report>, i: nat)
    requires i < |reports|
    ensures Run(reports[..i + 1]) == Updated(Run(reports[..i]), reports[i])
  {
    assert reports[..i + 1][..i] == reports[..i];
  }

  /** An entry's byte and total are changed by its own reports only. */
  lemma EntryNext(m: Monitors, r: Report, k: Key)
    ensures Decode(r) == Counter(k) ==> Updated(m, r).At(k).oldErrCnt == r.ErrCnt()
    ensures Decode(r) != Counter(k) ==>
      Updated(m, r).At(k).oldErrCnt == m.At(k).oldErrCnt && Updated(m, r).At(k).errCnt == m.At(k).errCnt
  {}

  /** An entry always remembers its own last byte. */
  lemma {:induction false} OwnByteKept(reports: seq<Report>, totals: seq<nat>, k: Key, n: nat)
    requires n <= |reports| == |totals| && Honest(reports, totals, k)
    ensures Run(reports[..n]).At(k).oldErrCnt == OwnTotal(reports, totals, k, n) % TWO_8
  {
    if n > 0 {
      OwnByteKept(reports, totals, k, n - 1);
      RunNext(reports, n - 1);
      EntryNext(Run(reports[..n - 1]), reports[n - 1], k);
    }
  }

  /** And its total stands between its reports. */
  lemma {:induction false} OwnTotalKept(reports: seq<Report>, totals: seq<nat>, k: Key, n: nat)
    requires n <= |reports| == |totals| && ExactUpTo(reports, totals, k, n)
    ensures Run(reports[..n]).At(k).errCnt == OwnTotal(reports, totals, k, n) % TWO_32
  {
    if n > 0 {
      OwnTotalKept(reports, totals, k, n - 1);
      RunNext(reports, n - 1);
      EntryNext(Run(reports[..n - 1]), reports[n - 1], k);
    }
  }

  /** One report more. */
  lemma ExactNextIff(reports: seq<Report>, totals: seq<nat>, k: Key, n: nat)
    requires n < |reports| == |totals| && Honest(reports, totals, k)
    requires forall i :: 0 <= i < |reports| ==> InBounds(reports[i])
    requires ExactUpTo(reports, totals, k, n)
    ensures ExactAt(reports, totals, k, n) <==> OwnByteAt(reports, totals, k, n)
  {
    if Decode(reports[n]) == Counter(k) {
      OwnReportIff(reports, totals, k, n);
    }
  }

  lemma OwnReportIff(reports: seq<Report>, totals: seq<nat>, k: Key, n: nat)
    requires n < |reports| == |totals| && Honest(reports, totals, k)
    requires forall i :: 0 <= i < |reports| ==> InBounds(reports[i])
    requires ExactUpTo(reports, totals, k, n) && Decode(reports[n]) == Counter(k)
    ensures Run(reports[..n + 1]).At(k).errCnt == totals[n] % TWO_32
            <==> LastByte(reports[..n], k.group, k.idx) == OwnTotal(reports, totals, k, n) % TWO_8
  {
    var m, own := Run(reports[..n]), OwnTotal(reports, totals, k, n);
    OwnByteKept(reports, totals, k, n);
    OwnTotalKept(reports, totals, k, n);
    TotalsTelescope(reports[..n], k.group, k.idx);
    RunNext(reports, n);
    SmallByte(own);
    SmallByte(LastByte(reports[..n], k.group, k.idx));
    ExactAfterIff(m, reports[n], own, totals[n]);
  }

  lemma SmallByte(x: nat)
    ensures (x % TWO_8) % TWO_8 == x % TWO_8 && (x < TWO_8 ==> x % TWO_8 == x)
  {}

  /**
   Over every run of honest reports, whatever other slots report: the total of an entry is its true count
   after each of its reports if and only if, at each of them, the byte last reported for its port was its own.
   */
  lemma {:induction false} ExactThroughoutIff(reports: seq<Report>, totals: seq<nat>, k: Key, n: nat)
    requires n <= |reports| == |totals| && Honest(reports, totals, k)
    requires forall i :: 0 <= i < |reports| ==> InBounds(reports[i])
    ensures ExactUpTo(reports, totals, k, n) <==> OwnByteUpTo(reports, totals, k, n)
  {
    if n > 0 {
      ExactThroughoutIff(reports, totals, k, n - 1);
      if ExactUpTo(reports, totals, k, n - 1) {
        ExactNextIff(reports, totals, k, n - 1);
      }
    }
  }

  /** Two slots that report the same port disturb each other: slot 1 has had 5 errors, and is charged with none. */
  lemma SharedPortMisleads()
    ensures var id := 1002;
      var r0 := Report(0, 1, id % TWO_8, id / TWO_8, 5, 0, 0);
      var r1 := r0.(slotId := 1);
      InBounds(r0) && InBounds(r1) && Decode(r1) == Counter(Key(Meth, 1, 0))
      && Run([r0, r1]).At(Key(Meth, 0, 0)).errCnt == 5 && Run([r0, r1]).At(Key(Meth, 1, 0)).errCnt == 0
  {
    var r0 := Report(0, 1, 234, 3, 5, 0, 0);
    var r1 := r0.(slotId := 1);
    var none := Monitors(map[], map[]);
    var once := Updated(none, r0);
    CounterStores(none, r0, Meth, 0);
    CounterStores(once, r1, Meth, 0);
    assert once.At(Key(Meth, 0, 0)).errCnt == 5 && once.LocalAt(Port(Meth, 0)).last == 5;
    assert Updated(once, r1).At(Key(Meth, 1, 0)).errCnt == 0;
    assert [r0, r1][..1] == [r0] && [r0][..0] == [];
    assert Run([r0]) == once && Run([r0, r1]) == Updated(once, r1);
    PortIdentifiers(r0, Meth, 0);
    PortIdentifiers(r1, Meth, 0);
  }
}
