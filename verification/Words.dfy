/** Machine integers and the additive checksums shared by the train, DMA and SPI code. */
module Words {
  const TWO_8: int := 0x100
  const TWO_16: int := 0x1_0000
  const TWO_32: int := 0x1_0000_0000
  const TWO_64: int := 0x1_0000_0000_0000_0000

  type byte = x: int | 0 <= x < TWO_8
  type half = x: int | 0 <= x < TWO_16
  type word = x: int | 0 <= x < TWO_32
  type dword = x: int | 0 <= x < TWO_64

  /** The exact sum; the program keeps it modulo the width of its accumulator. */
  function Sum(s: seq<nat>): nat {
    if s == [] then 0 else Sum(s[..|s| - 1]) + s[|s| - 1]
  }

  lemma {:induction false} SumUpdate(s: seq<nat>, i: nat, v: nat)
    requires i < |s|
    ensures Sum(s[i := v]) == Sum(s) - s[i] + v
  {
    var n := |s| - 1;
    if i == n {
      assert s[i := v][..n] == s[..n];
    } else {
      assert s[i := v][..n] == s[..n][i := v];
      SumUpdate(s[..n], i, v);
    }
  }

  lemma {:induction false} SumZeros(s: seq<nat>)
    requires forall i :: 0 <= i < |s| ==> s[i] == 0
    ensures Sum(s) == 0
  {
    if s != [] {
      SumZeros(s[..|s| - 1]);
    }
  }

  /** A frame carries its own check: the last word is the 32-bit sum of all the others. */
  predicate SumsToLast(frame: seq<word>) {
    frame != [] && Sum(frame[..|frame| - 1]) % TWO_32 == frame[|frame| - 1]
  }

  /** Changing one word of an accepted frame, summed word or check word, is always noticed. */
  lemma OneWordErrorDetected(frame: seq<word>, i: nat, v: word)
    requires SumsToLast(frame) && i < |frame| && v != frame[i]
    ensures !SumsToLast(frame[i := v])
  {
    var n := |frame| - 1;
    var bad := frame[i := v];
    if i == n {
      assert bad[..n] == frame[..n];
    } else {
      assert bad[..n] == frame[..n][i := v];
      SumUpdate(frame[..n], i, v);
    }
  }

  lemma SameResidueIff(x: nat, d: int)
    ensures (x + d) % TWO_32 == x % TWO_32 <==> d % TWO_32 == 0
  {}

  /** Changing two summed words of an accepted frame is missed exactly when the two changes cancel. */
  lemma TwoWordErrorMissedIff(frame: seq<word>, i: nat, v: word, j: nat, u: word)
    requires SumsToLast(frame) && i < j < |frame| - 1
    ensures SumsToLast(frame[i := v][j := u]) <==> (v - frame[i] + u - frame[j]) % TWO_32 == 0
  {
    var n := |frame| - 1;
    SumUpdate(frame[..n], i, v);
    SumUpdate(frame[..n][i := v], j, u);
    assert frame[i := v][j := u][..n] == frame[..n][i := v][j := u];
    SameResidueIff(Sum(frame[..n]), v - frame[i] + u - frame[j]);
  }

  /** Quotient and remainder are unique. */
  lemma ModUnique(x: nat, m: nat, q: nat, r: nat)
    requires r < m && x == m * q + r
    ensures x % m == r && x / m == q
  {
    Scaled(m, x / m - q);
    assert m * (x / m - q) == r - x % m;
  }

  lemma Scaled(m: int, k: int)
    requires m >= 0
    ensures k >= 1 ==> m * k >= m
    ensures k <= -1 ==> m * k <= -m
  {
    if k >= 1 {
      assert m * k == m + m * (k - 1);
    } else if k <= -1 {
      assert m * k == -m + m * (k + 1);
    }
  }

  /** Byte `k` of a packed structure kept as little-endian words. */
  function ByteOf(words: seq<word>, k: nat): byte
    requires k / 4 < |words|
  {
    var w := words[k / 4];
    if k % 4 == 0 then w % 0x100
    else if k % 4 == 1 then w / 0x100 % 0x100
    else if k % 4 == 2 then w / 0x1_0000 % 0x100
    else w / 0x100_0000
  }

  /** The two-byte field at byte `k`. */
  function HalfOf(words: seq<word>, k: nat): half
    requires (k + 1) / 4 < |words|
  {
    ByteOf(words, k) + ByteOf(words, k + 1) * 0x100
  }

  /** Where the bytes of one word are. */
  lemma BytesOfWord(words: seq<word>, i: nat)
    requires i < |words|
    ensures ByteOf(words, 4 * i) == words[i] % 0x100
    ensures ByteOf(words, 4 * i + 1) == words[i] / 0x100 % 0x100
    ensures ByteOf(words, 4 * i + 2) == words[i] / 0x1_0000 % 0x100
    ensures ByteOf(words, 4 * i + 3) == words[i] / 0x100_0000
    ensures HalfOf(words, 4 * i) == words[i] % 0x1_0000
    ensures HalfOf(words, 4 * i + 2) == words[i] / 0x1_0000
  {
    LowHalf(words[i]);
    HighHalf(words[i]);
  }

  lemma LowHalf(w: word)
    ensures w % 0x100 + w / 0x100 % 0x100 * 0x100 == w % 0x1_0000
  {
    var upper, low := w / 0x100, w % 0x100;
    var q, mid := upper / 0x100, upper % 0x100;
    assert w == 0x1_0000 * q + (mid * 0x100 + low);
    ModUnique(w, 0x1_0000, q, mid * 0x100 + low);
  }

  lemma HighHalf(w: word)
    ensures w / 0x1_0000 % 0x100 + w / 0x100_0000 * 0x100 == w / 0x1_0000
  {
    var h := w / 0x1_0000;
    assert w == 0x100_0000 * (h / 0x100) + (h % 0x100 * 0x1_0000 + w % 0x1_0000);
    ModUnique(w, 0x100_0000, h / 0x100, h % 0x100 * 0x1_0000 + w % 0x1_0000);
  }

  /** `c++` on a 32-bit counter. */
  function Inc(c: word): word { if c + 1 == TWO_32 then 0 else c + 1 }

  /** Incrementing a wrapped count counts one more. */
  lemma IncWraps(exact: nat)
    ensures Inc(exact % TWO_32) == (exact + 1) % TWO_32
  {}

  /** Reducing before or after an addition gives the same machine address. */
  lemma Wrap64Add(x: nat, y: nat)
    ensures (x % TWO_64 + y) % TWO_64 == (x + y) % TWO_64
  {}

  lemma Wrap32Add(x: nat, y: nat)
    ensures (x % TWO_32 + y) % TWO_32 == (x + y) % TWO_32
  {}

  /** Narrowing a 64-bit value to 32 bits forgets only the high word. */
  lemma Wrap64Then32(x: nat)
    ensures (x % TWO_64) % TWO_32 == x % TWO_32
  {}

  /** The 32-bit sum loop of both ends of the train link. */
  method Checksum(words: seq<word>) returns (sum: word)
    ensures sum == Sum(words) % TWO_32
  {
    sum := 0;
    var i := 0;
    while i < |words|
      invariant 0 <= i <= |words|
      invariant sum == Sum(words[..i]) % TWO_32
    {
      assert words[..i + 1][..i] == words[..i];
      Wrap32Add(Sum(words[..i]), words[i]);
      sum := (sum + words[i]) % TWO_32;
      i := i + 1;
    }
    assert words[..i] == words;
  }
}
