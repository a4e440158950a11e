/**
 The address mapping of inline DDR ECC: data comes in pairs of 512-byte blocks, with the 128 bytes that
 hold the ECC of a pair between its two blocks.
 */
module EccMapping {
  import opened Words

  const DDR_BASE := 0x8000_0000
  const MEM_BLOCK := 0x200
  const ECC_PER_BLOCK := 0x40

  /** A pair of data blocks with its ECC in between, as laid out in memory. */
  const GROUP := 0x480
  const GROUP_DATA := 0x400
  const HOLE := 0x200
  const HOLE_END := 0x280

  /** Data addresses from here on have no 32-bit translation. */
  const DATA_LIMIT := 0x71C7_1C80

  /** The low word of a sum or difference of two words. */
  function Low(x: int): word
    requires -TWO_32 <= x < 2 * TWO_32
  {
    if x < 0 then x + TWO_32 else if x < TWO_32 then x else x - TWO_32
  }

  /** The translation, in the 32-bit arithmetic of the core that runs it. */
  function Translate(addr: word): word {
    var memIndex := Low(addr - DDR_BASE) / MEM_BLOCK;
    if memIndex % 2 == 0 then Low(addr + memIndex * ECC_PER_BLOCK)
    else Low(addr + (memIndex + 1) * ECC_PER_BLOCK)
  }

  /** The offset data offset `d` moves to, with no wrap. */
  function Moved(d: nat): nat {
    var k := d / MEM_BLOCK;
    d + (k + k % 2) * ECC_PER_BLOCK
  }

  /** The data offset stored at offset `o`. */
  function Unmoved(o: nat): nat {
    var r := o % GROUP;
    o / GROUP * GROUP_DATA + if r < HOLE then r else if r < HOLE_END then HOLE else r - (HOLE_END - HOLE)
  }

  predicate InHole(o: nat) { HOLE <= o % GROUP < HOLE_END }

  /** Where a data offset goes, by its place in its pair of blocks. */
  lemma MovedByGroup(d: nat)
    ensures var g, r := d / GROUP_DATA, d % GROUP_DATA;
      Moved(d) == g * GROUP + (if r < HOLE then r else r + (HOLE_END - HOLE))
  {
    var g, r := d / GROUP_DATA, d % GROUP_DATA;
    assert d == g * GROUP_DATA + r;
    if r < HOLE {
      assert d / MEM_BLOCK == 2 * g;
    } else {
      assert d / MEM_BLOCK == 2 * g + 1;
    }
  }

  /** No data lands in an ECC hole, and the place it lands gives it back. */
  lemma MovedAvoidsHoles(d: nat)
    ensures !InHole(Moved(d)) && Unmoved(Moved(d)) == d
  {
    MovedByGroup(d);
    var g, r := d / GROUP_DATA, d % GROUP_DATA;
    var s := if r < HOLE then r else r + (HOLE_END - HOLE);
    assert d == g * GROUP_DATA + r && Moved(d) == g * GROUP + s && s < GROUP;
    assert Moved(d) / GROUP == g && Moved(d) % GROUP == s;
  }

  /** Every place that is not a hole holds data: no byte is missed. */
  lemma MovedCoversTheRest(o: nat)
    requires !InHole(o)
    ensures Moved(Unmoved(o)) == o
  {
    var g, s := o / GROUP, o % GROUP;
    var r := if s < HOLE then s else s - (HOLE_END - HOLE);
    assert o == g * GROUP + s && Unmoved(o) == g * GROUP_DATA + r && r < GROUP_DATA;
    assert Unmoved(o) / GROUP_DATA == g && Unmoved(o) % GROUP_DATA == r;
    MovedByGroup(Unmoved(o));
  }

  lemma MovedIncreases(d: nat, e: nat)
    requires d < e
    ensures Moved(d) < Moved(e)
  {
    MovedByGroup(d);
    MovedByGroup(e);
    PlacesIncrease(d / GROUP_DATA, d % GROUP_DATA, e / GROUP_DATA, e % GROUP_DATA);
  }

  lemma PlacesIncrease(g: nat, r: nat, h: nat, q: nat)
    requires r < GROUP_DATA && q < GROUP_DATA && g * GROUP_DATA + r < h * GROUP_DATA + q
    ensures g * GROUP + (if r < HOLE then r else r + (HOLE_END - HOLE))
          < h * GROUP + (if q < HOLE then q else q + (HOLE_END - HOLE))
  {}

  /** The reduction does nothing exactly below the limit. */
  lemma NoWrapIff(d: nat)
    ensures DDR_BASE + Moved(d) < TWO_32 <==> d < DATA_LIMIT
  {
    MovedByGroup(DATA_LIMIT);
    MovedByGroup(DATA_LIMIT - 1);
    if d < DATA_LIMIT - 1 {
      MovedIncreases(d, DATA_LIMIT - 1);
    } else if d > DATA_LIMIT {
      MovedIncreases(DATA_LIMIT, d);
    }
  }

  /** The program computes that offset: exactly below the limit, and 2^32 too low from there on. */
  lemma TranslateIsMoved(addr: word)
    requires addr >= DDR_BASE
    ensures Translate(addr) ==
      DDR_BASE + Moved(addr - DDR_BASE) - if addr < DDR_BASE + DATA_LIMIT then 0 else TWO_32
  {
    NoWrapIff(addr - DDR_BASE);
  }

  /** Below the limit, translation is strictly increasing and never yields an address in an ECC hole. */
  lemma TranslateIncreases(a: word, b: word)
    requires DDR_BASE <= a < b < DDR_BASE + DATA_LIMIT
    ensures DDR_BASE <= Translate(a) < Translate(b)
    ensures !InHole(Translate(a) - DDR_BASE) && !InHole(Translate(b) - DDR_BASE)
  {
    TranslateIsMoved(a);
    TranslateIsMoved(b);
    MovedIncreases(a - DDR_BASE, b - DDR_BASE);
    MovedAvoidsHoles(a - DDR_BASE);
    MovedAvoidsHoles(b - DDR_BASE);
  }

  lemma TranslateInjective(a: word, b: word)
    requires DDR_BASE <= a < DDR_BASE + DATA_LIMIT && DDR_BASE <= b < DDR_BASE + DATA_LIMIT
    requires Translate(a) == Translate(b)
    ensures a == b
  {
    if a < b {
      TranslateIncreases(a, b);
    } else if b < a {
      TranslateIncreases(b, a);
    }
  }

  lemma TranslateUnmoved(t: word)
    requires t >= DDR_BASE && !InHole(t - DDR_BASE)
    ensures var a := DDR_BASE + Unmoved(t - DDR_BASE); a < DDR_BASE + DATA_LIMIT <= TWO_32 && Translate(a) == t
  {
    var d := Unmoved(t - DDR_BASE);
    MovedCoversTheRest(t - DDR_BASE);
    NoWrapIff(d);
    TranslateIsMoved(DDR_BASE + d);
  }

  /** And every DDR address that is not in a hole is the translation of exactly one data address below the limit. */
  lemma TranslateOntoTheRest(t: word)
    requires t >= DDR_BASE && !InHole(t - DDR_BASE)
    ensures var a := DDR_BASE + Unmoved(t - DDR_BASE);
      a < DDR_BASE + DATA_LIMIT <= TWO_32 && Translate(a) == t
      && forall b: word :: DDR_BASE <= b < DDR_BASE + DATA_LIMIT && Translate(b) == t ==> b == a
  {
    TranslateUnmoved(t);
    var a := DDR_BASE + Unmoved(t - DDR_BASE);
    forall b: word | DDR_BASE <= b < DDR_BASE + DATA_LIMIT && Translate(b) == t ensures b == a {
      TranslateInjective(b, a);
    }
  }
}
