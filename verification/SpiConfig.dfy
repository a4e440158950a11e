/**
 Configuration of the FPGA over SPI: a frame is sent twice, and what comes back during the second
 transfer must echo it.
 */
module SpiConfig {
  import opened Words

  const CPU_TO_FPGA: half := 0x1234
  const FPGA_TO_CPU: half := 0x4321
  const CFG_TYPE_FT3: byte := 0x01
  const CFG_TYPE_INIT: byte := 0xfe
  const BUF_SIZE := 256
  const HEAD := 4
  const INIT_CHECKED_BYTES := 12
  const FT3_CFG_BYTES := 32
  const FT3_CFG_WORDS := 16
  const CHANNELS := 32

  const CFG_VALID: word := 1
  const CFG_PASS: word := 2
  const CFG_FAIL: word := 3

  function Sum16(s: seq<half>): half { Sum(s) % TWO_16 }

  /** The link: whatever the other end drives, word `i` of transfer `n` reads as `reply(n, i)`. */
  class Spi {
    const reply: (nat, nat) -> half
    var sent: seq<seq<half>>

    constructor (reply: (nat, nat) -> half)
      ensures this.reply == reply && sent == []
    {
      this.reply, sent := reply, [];
    }

    /** One polled transfer of `n` words in both directions. */
    method Transmit(tx: array<half>, rx: array<half>, n: nat)
      requires n <= tx.Length && n <= rx.Length && tx != rx
      modifies this, rx
      ensures sent == old(sent) + [tx[..n]]
      ensures rx[..] == Replied(reply, |old(sent)|, n) + old(rx[n..])
    {
      var i := 0;
      while i < n
        invariant 0 <= i <= n && sent == old(sent)
        invariant forall k :: 0 <= k < i ==> rx[k] == reply(|sent|, k)
        invariant forall k :: i <= k < rx.Length ==> rx[k] == old(rx[k])
      {
        rx[i] := reply(|sent|, i);
        i := i + 1;
      }
      assert rx[..n] == Replied(reply, |sent|, n) && rx[n..] == old(rx[n..]);
      assert rx[..] == rx[..n] + rx[n..];
      sent := sent + [tx[..n]];
    }
  }

  function Replied(reply: (nat, nat) -> half, transfer: nat, n: nat): seq<half> {
    seq(n, i requires 0 <= i < n => reply(transfer, i))
  }

  /** Comparison of `bytes` bytes from word `at`, as memcmp sees little-endian words. */
  predicate SameBytes(a: seq<half>, b: seq<half>, at: nat, bytes: nat)
    requires at + (bytes + 1) / 2 <= |a| && at + (bytes + 1) / 2 <= |b|
  {
    && a[at..at + bytes / 2] == b[at..at + bytes / 2]
    && (bytes % 2 == 1 ==> a[at + bytes / 2] % TWO_8 == b[at + bytes / 2] % TWO_8)
  }

  method MemCmp(a: array<half>, b: array<half>, at: nat, bytes: nat) returns (same: bool)
    requires at + (bytes + 1) / 2 <= a.Length && at + (bytes + 1) / 2 <= b.Length
    ensures same == SameBytes(a[..], b[..], at, bytes)
  {
    var i := 0;
    while i < bytes / 2
      invariant 0 <= i <= bytes / 2
      invariant a[at..at + i] == b[at..at + i]
    {
      if a[at + i] != b[at + i] {
        assert a[..][at..at + bytes / 2][i] != b[..][at..at + bytes / 2][i];
        return false;
      }
      i := i + 1;
    }
    assert a[..][at..at + bytes / 2] == a[at..at + bytes / 2] && b[..][at..at + bytes / 2] == b[at..at + bytes / 2];
    same := bytes % 2 == 1 ==> a[at + bytes / 2] % TWO_8 == b[at + bytes / 2] % TWO_8;
  }

  method AddUp(a: array<half>, at: nat, n: nat) returns (sum: half)
    requires at + n <= a.Length
    ensures sum == Sum16(a[at..at + n])
  {
    sum := 0;
    var i := 0;
    while i < n
      invariant 0 <= i <= n
      invariant sum == Sum16(a[at..at + i])
    {
      assert a[at..at + i + 1][..i] == a[at..at + i];
      sum := (sum + a[at + i]) % TWO_16;
      i := i + 1;
    }
  }

  // ---------------------------------------------------------------- one frame

  /** The sum word behind a payload of `len` bytes. */
  function TrailerAt(len: nat): nat { (2 * HEAD + len) / 2 }

  function CfgType(cfg: seq<half>): byte
    requires |cfg| > 1
  {
    cfg[1] % TWO_8
  }

  /** The tests the driver makes on a reply, in its order. */
  predicate DriverAccepts(cfg: seq<half>, bak: seq<half>, len: nat)
    requires |cfg| == |bak| == BUF_SIZE && TrailerAt(len) < BUF_SIZE
  {
    var bakSum := Sum16(bak[HEAD..HEAD + len / 2]);
    && bak[0] == FPGA_TO_CPU
    && if CfgType(cfg) == CFG_TYPE_INIT then
         SameBytes(cfg, bak, HEAD, INIT_CHECKED_BYTES) && bakSum == bak[TrailerAt(len)]
       else
         SameBytes(cfg, bak, HEAD, len) && bakSum == Sum16(cfg[HEAD..HEAD + len / 2]) && bakSum == bak[TrailerAt(len)]
  }

  /** What an accepted reply is: our payload and its sum, headed by the FPGA's mark. */
  predicate Echoes(cfg: seq<half>, bak: seq<half>, len: nat)
    requires |cfg| == |bak| == BUF_SIZE && TrailerAt(len) < BUF_SIZE
  {
    && bak[0] == FPGA_TO_CPU
    && bak[HEAD..HEAD + len / 2] == cfg[HEAD..HEAD + len / 2]
    && bak[TrailerAt(len)] == Sum16(cfg[HEAD..HEAD + len / 2])
  }

  /**
   For every frame but INIT, of any length: the driver accepts exactly the echoes. Its test that the two
   sums agree, and its comparison of an odd last byte, are implied.
   */
  lemma AcceptsExactlyEchoes(cfg: seq<half>, bak: seq<half>, len: nat)
    requires |cfg| == |bak| == BUF_SIZE && TrailerAt(len) < BUF_SIZE
    requires cfg[TrailerAt(len)] == Sum16(cfg[HEAD..HEAD + len / 2]) && CfgType(cfg) != CFG_TYPE_INIT
    ensures DriverAccepts(cfg, bak, len) <==> Echoes(cfg, bak, len)
  {
    assert TrailerAt(len) == HEAD + len / 2;
  }

  /** An accepted reply to an INIT frame echoes it if and only if the payload after 12 bytes, not compared, does. */
  lemma InitAcceptsIff(cfg: seq<half>, bak: seq<half>, len: nat)
    requires |cfg| == |bak| == BUF_SIZE && TrailerAt(len) < BUF_SIZE && len >= INIT_CHECKED_BYTES
    requires cfg[TrailerAt(len)] == Sum16(cfg[HEAD..HEAD + len / 2]) && CfgType(cfg) == CFG_TYPE_INIT
    ensures var checked, end := HEAD + INIT_CHECKED_BYTES / 2, HEAD + len / 2;
      Echoes(cfg, bak, len) <==> DriverAccepts(cfg, bak, len) && bak[checked..end] == cfg[checked..end]
  {
    var checked, end := HEAD + INIT_CHECKED_BYTES / 2, HEAD + len / 2;
    assert cfg[HEAD..end] == cfg[HEAD..checked] + cfg[checked..end];
    assert bak[HEAD..end] == bak[HEAD..checked] + bak[checked..end];
    assert cfg[HEAD..end][..INIT_CHECKED_BYTES / 2] == cfg[HEAD..checked];
    assert bak[HEAD..end][..INIT_CHECKED_BYTES / 2] == bak[HEAD..checked];
    assert cfg[HEAD..end][INIT_CHECKED_BYTES / 2..] == cfg[checked..end];
    assert bak[HEAD..end][INIT_CHECKED_BYTES / 2..] == bak[checked..end];
  }

  /** The 12 compared bytes of an INIT frame are just its payload, or its payload and sum. */
  lemma InitAcceptsEchoes(cfg: seq<half>, bak: seq<half>, len: nat)
    requires |cfg| == |bak| == BUF_SIZE && 10 <= len < 14
    requires cfg[TrailerAt(len)] == Sum16(cfg[HEAD..HEAD + len / 2]) && CfgType(cfg) == CFG_TYPE_INIT
    ensures DriverAccepts(cfg, bak, len) <==> Echoes(cfg, bak, len)
  {
    var end := HEAD + len / 2;
    if len >= INIT_CHECKED_BYTES {
      InitAcceptsIff(cfg, bak, len);
    } else {
      assert cfg[HEAD..end + 1] == cfg[HEAD..end] + [cfg[end]];
      assert bak[HEAD..end + 1] == bak[HEAD..end] + [bak[end]];
      assert cfg[HEAD..end + 1][..5] == cfg[HEAD..end] && bak[HEAD..end + 1][..5] == bak[HEAD..end];
    }
  }

  /** A reply to a longer INIT frame that is no echo, and accepted: the payload differs behind the compared bytes. */
  function LateError(cfg: seq<half>, len: nat): (bak: seq<half>)
    requires |cfg| == BUF_SIZE && TrailerAt(len) < BUF_SIZE && len >= 14
    ensures |bak| == BUF_SIZE
  {
    var wrong := cfg[0 := FPGA_TO_CPU][HEAD + 6 := (cfg[HEAD + 6] + 1) % TWO_16];
    wrong[TrailerAt(len) := Sum16(wrong[HEAD..HEAD + len / 2])]
  }

  lemma LateErrorAccepted(cfg: seq<half>, len: nat)
    requires |cfg| == BUF_SIZE && TrailerAt(len) < BUF_SIZE && len >= 14 && CfgType(cfg) == CFG_TYPE_INIT
    ensures DriverAccepts(cfg, LateError(cfg, len), len) && !Echoes(cfg, LateError(cfg, len), len)
  {
    var wrong, bak, end := cfg[0 := FPGA_TO_CPU][HEAD + 6 := (cfg[HEAD + 6] + 1) % TWO_16], LateError(cfg, len),
                           HEAD + len / 2;
    assert bak[HEAD..end] == wrong[HEAD..end];
    assert bak[HEAD..HEAD + 6] == cfg[HEAD..HEAD + 6];
    assert bak[HEAD..end][6] != cfg[HEAD..end][6];
  }

  /** An echo of a shorter INIT frame that is rejected: a word behind the frame is compared too. */
  function EarlyError(cfg: seq<half>, len: nat): (bak: seq<half>)
    requires |cfg| == BUF_SIZE && len < 10
    ensures |bak| == BUF_SIZE
  {
    cfg[0 := FPGA_TO_CPU][HEAD + 5 := (cfg[HEAD + 5] + 1) % TWO_16]
  }

  lemma EarlyErrorRejected(cfg: seq<half>, len: nat)
    requires |cfg| == BUF_SIZE && len < 10 && CfgType(cfg) == CFG_TYPE_INIT
    requires cfg[TrailerAt(len)] == Sum16(cfg[HEAD..HEAD + len / 2])
    ensures !DriverAccepts(cfg, EarlyError(cfg, len), len) && Echoes(cfg, EarlyError(cfg, len), len)
  {
    var bak := EarlyError(cfg, len);
    assert bak[HEAD..HEAD + 6][5] != cfg[HEAD..HEAD + 6][5];
    assert bak[HEAD..HEAD + len / 2] == cfg[HEAD..HEAD + len / 2];
  }

  /**
   By its length alone: the driver accepts exactly the echoes of an INIT frame, whatever comes back, if and
   only if the payload has 10 to 13 bytes.
   */
  lemma InitAcceptsExactlyEchoesIff(cfg: seq<half>, len: nat)
    requires |cfg| == BUF_SIZE && TrailerAt(len) < BUF_SIZE && CfgType(cfg) == CFG_TYPE_INIT
    requires cfg[TrailerAt(len)] == Sum16(cfg[HEAD..HEAD + len / 2])
    ensures (forall bak: seq<half> :: |bak| == BUF_SIZE ==> (DriverAccepts(cfg, bak, len) <==> Echoes(cfg, bak, len)))
            <==> 10 <= len < 14
  {
    if len < 10 {
      EarlyErrorRejected(cfg, len);
    } else if len < 14 {
      forall bak: seq<half> | |bak| == BUF_SIZE ensures DriverAccepts(cfg, bak, len) <==> Echoes(cfg, bak, len) {
        InitAcceptsEchoes(cfg, bak, len);
      }
    } else {
      LateErrorAccepted(cfg, len);
    }
  }

  // ---------------------------------------------------------------- in words and bytes of the frames

  /** Byte `k` of a buffer of little-endian 16-bit words. */
  function HalfByte(words: seq<half>, k: nat): byte
    requires k / 2 < |words|
  {
    if k % 2 == 0 then words[k / 2] % 0x100 else words[k / 2] / 0x100
  }

  /** The comparison is true exactly when all the bytes agree. */
  lemma SameBytesIff(a: seq<half>, b: seq<half>, at: nat, bytes: nat)
    requires at + (bytes + 1) / 2 <= |a| && at + (bytes + 1) / 2 <= |b|
    ensures SameBytes(a, b, at, bytes) <==>
      forall k: nat {:trigger HalfByte(a, k)} {:trigger HalfByte(b, k)} ::
        2 * at <= k < 2 * at + bytes ==> HalfByte(a, k) == HalfByte(b, k)
  {
    if SameBytes(a, b, at, bytes) {
      forall k: nat | 2 * at <= k < 2 * at + bytes ensures HalfByte(a, k) == HalfByte(b, k) {
        if k / 2 < at + bytes / 2 {
          assert a[at..at + bytes / 2][k / 2 - at] == b[at..at + bytes / 2][k / 2 - at];
        }
      }
    }
    if forall k: nat {:trigger HalfByte(a, k)} ::
        2 * at <= k < 2 * at + bytes ==> HalfByte(a, k) == HalfByte(b, k) {
      forall i | at <= i < at + bytes / 2 ensures a[i] == b[i] {
        assert HalfByte(a, 2 * i) == HalfByte(b, 2 * i) && HalfByte(a, 2 * i + 1) == HalfByte(b, 2 * i + 1);
        WholeWord(a, b, i);
      }
      assert a[at..at + bytes / 2] == b[at..at + bytes / 2];
      if bytes % 2 == 1 {
        assert HalfByte(a, 2 * (at + bytes / 2)) == HalfByte(b, 2 * (at + bytes / 2));
      }
    }
  }

  lemma WholeWord(a: seq<half>, b: seq<half>, i: nat)
    requires i < |a| && i < |b|
    requires HalfByte(a, 2 * i) == HalfByte(b, 2 * i) && HalfByte(a, 2 * i + 1) == HalfByte(b, 2 * i + 1)
    ensures a[i] == b[i]
  {
    assert a[i] == a[i] / 0x100 * 0x100 + a[i] % 0x100 && b[i] == b[i] / 0x100 * 0x100 + b[i] % 0x100;
  }

  /** An INIT frame, known by its byte 2 being 0xfe: the reply must carry the mark, agree in 12 bytes, and sum up. */
  lemma InitAcceptedByWords(cfg: seq<half>, bak: seq<half>, len: nat, port: byte)
    requires |cfg| == |bak| == 256 && 4 + len / 2 < 256 && TrailerAt(len) < BUF_SIZE
    requires cfg[1] == 0xfe + port * 0x100
    ensures DriverAccepts(cfg, bak, len) <==>
      && bak[0] == 0x4321 && bak[4..10] == cfg[4..10]
      && bak[4 + len / 2] == Sum(bak[4..4 + len / 2]) % 0x1_0000
  {
    assert TrailerAt(len) == 4 + len / 2;
    assert cfg[1] % 0x100 == 0xfe;
  }

  /** Any other frame: the mark, the payload and its sum. */
  lemma OtherAcceptedByWords(cfg: seq<half>, bak: seq<half>, len: nat)
    requires |cfg| == |bak| == 256 && 4 + len / 2 < 256 && TrailerAt(len) < BUF_SIZE
    requires cfg[1] % 0x100 != 0xfe && cfg[4 + len / 2] == Sum(cfg[4..4 + len / 2]) % 0x1_0000
    ensures DriverAccepts(cfg, bak, len) <==>
      && bak[0] == 0x4321 && bak[4..4 + len / 2] == cfg[4..4 + len / 2]
      && bak[4 + len / 2] == Sum(cfg[4..4 + len / 2]) % 0x1_0000
  {
    assert TrailerAt(len) == 4 + len / 2;
    AcceptsExactlyEchoes(cfg, bak, len);
  }

  /** Sends a frame and checks the echo of its second transfer. */
  method SendCfg(spi: Spi, cfg: array<half>, bak: array<half>, len: nat) returns (r: int)
    requires cfg != bak && cfg.Length == bak.Length == BUF_SIZE && TrailerAt(len) < BUF_SIZE
    modifies spi, cfg, bak
    ensures cfg[..] == old(cfg[..])[TrailerAt(len) := Sum16(old(cfg[HEAD..HEAD + len / 2]))]
    ensures var n := TrailerAt(len) + 1;
      && spi.sent == old(spi.sent) + [cfg[..n], cfg[..n]]
      && bak[..] == Replied(spi.reply, |old(spi.sent)| + 1, n) + old(bak[n..])
    ensures r == if DriverAccepts(cfg[..], bak[..], len) then 0 else -1
  {
    var offset := HEAD;
    var sumCheck := AddUp(cfg, offset, len / 2);
    offset := (2 * HEAD + len) / 2;
    cfg[offset] := sumCheck;
    offset := offset + 1;
    spi.Transmit(cfg, bak, offset);
    spi.Transmit(cfg, bak, offset);
    if bak[0] != FPGA_TO_CPU {
      return -1;
    }
    var init := cfg[1] % TWO_8 == CFG_TYPE_INIT;
    var same := MemCmp(cfg, bak, HEAD, if init then INIT_CHECKED_BYTES else len);
    if !same {
      return -1;
    }
    var sumCheckBak := AddUp(bak, HEAD, len / 2);
    offset := (2 * HEAD + len) / 2;
    if init {
      r := if sumCheckBak == bak[offset] then 0 else -1;
    } else {
      r := if sumCheckBak == sumCheck && sumCheckBak == bak[offset] then 0 else -1;
    }
  }

  // ---------------------------------------------------------------- the FT3 channels of a slot

  /** A channel's configuration as words, the copy read back, and its state. */
  datatype Channel = Channel(data: seq<half>, bak: seq<half>, state: word)

  type Config = c: seq<half> | |c| == FT3_CFG_WORDS witness seq(FT3_CFG_WORDS, _ => 0)

  /** The frame that configures FT3 port `port` of slot `slot`. */
  function Frame(slot: byte, port: byte, data: Config): (f: seq<half>)
    ensures |f| == HEAD + FT3_CFG_WORDS + 1
  {
    [CPU_TO_FPGA, CFG_TYPE_FT3 + port * TWO_8, slot, FT3_CFG_WORDS] + data + [Sum16(data)]
  }

  /** The bytes of that frame: head, type, port, slot, length in words, the configuration, and its sum. */
  lemma FrameBytes(slot: byte, port: byte, data: Config, i: nat)
    requires i < 16
    ensures var f := Frame(slot, port, data);
      && f[0] == 0x1234 && HalfByte(f, 2) == 0x01 && HalfByte(f, 3) == port
      && HalfByte(f, 4) == slot && HalfByte(f, 5) == 0 && f[3] == 16
      && f[4 + i] == data[i] && f[20] == Sum(data) % 0x1_0000 && |f| == 21
  {}

  /** Transfer `n` brings back the configuration, its sum, and the FPGA's mark. */
  predicate Confirms(reply: (nat, nat) -> half, n: nat, data: Config) {
    && reply(n, 0) == FPGA_TO_CPU
    && (forall i :: 0 <= i < FT3_CFG_WORDS ==> reply(n, HEAD + i) == data[i])
    && reply(n, HEAD + FT3_CFG_WORDS) == Sum16(data)
  }

  /** What becomes of a channel whose first transfer, if any, is number `n`. */
  function Outcome(c: Channel, reply: (nat, nat) -> half, n: nat): Channel
    requires |c.data| == FT3_CFG_WORDS
  {
    if c.state != CFG_VALID then c
    else if Confirms(reply, n + 1, c.data) then c.(state := CFG_PASS, bak := c.data)
    else c.(state := CFG_FAIL)
  }

  predicate Configs(chs: seq<Channel>) {
    |chs| == CHANNELS && forall i :: 0 <= i < CHANNELS ==> |chs[i].data| == FT3_CFG_WORDS
  }

  /** Channel `c` has become `d`. If it was VALID, its transfers are numbers `from` and `from` + 1, and `to` is next. */
  predicate ChannelDone(slot: byte, port: byte, c: Channel, d: Channel, reply: (nat, nat) -> half,
                        sent: seq<seq<half>>, from: nat, to: nat)
    requires |c.data| == FT3_CFG_WORDS
  {
    && from <= to <= |sent| && d == Outcome(c, reply, from)
    && to == from + (if c.state == CFG_VALID then 2 else 0)
    && (c.state == CFG_VALID ==> sent[from] == sent[from + 1] == Frame(slot, port, c.data))
  }

  /** What has been sent later changes nothing. */
  lemma StaysDone(slot: byte, port: byte, c: Channel, d: Channel, reply: (nat, nat) -> half,
                  sent: seq<seq<half>>, more: seq<seq<half>>, from: nat, to: nat)
    requires |c.data| == FT3_CFG_WORDS && ChannelDone(slot, port, c, d, reply, sent, from, to)
    ensures ChannelDone(slot, port, c, d, reply, sent + more, from, to)
  {}

  /**
   How far the configuration of a direction has come: `at[i]` is the number of the first transfer of
   channel `i`. The first `n` channels have had their two transfers each, if VALID, and their outcome.
   */
  ghost predicate Progress(slot: byte, was: seq<Channel>, now: seq<Channel>, reply: (nat, nat) -> half,
                           before: seq<seq<half>>, sent: seq<seq<half>>, at: seq<nat>, n: nat)
    requires Configs(was)
  {
    && |now| == CHANNELS && n <= CHANNELS && |at| == n + 1
    && at[0] == |before| && at[n] == |sent| && before <= sent
    && (forall i {:trigger now[i]} :: 0 <= i < n ==>
         ChannelDone(slot, i, was[i], now[i], reply, sent, at[i], at[i + 1]))
    && (forall i {:trigger now[i]} :: n <= i < CHANNELS ==> now[i] == was[i])
  }

  /** One more channel: what it sent and what became of it. */
  lemma ProgressNext(slot: byte, was: seq<Channel>, now: seq<Channel>, reply: (nat, nat) -> half,
                     before: seq<seq<half>>, sent: seq<seq<half>>, at: seq<nat>, n: nat,
                     d: Channel, more: seq<seq<half>>)
    requires Configs(was) && Progress(slot, was, now, reply, before, sent, at, n) && n < CHANNELS
    requires ChannelDone(slot, n, was[n], d, reply, sent + more, |sent|, |sent + more|)
    ensures Progress(slot, was, now[n := d], reply, before, sent + more, at + [|sent + more|], n + 1)
  {
    var after, next := now[n := d], at + [|sent + more|];
    forall i {:trigger after[i]} | 0 <= i < n + 1
      ensures ChannelDone(slot, i, was[i], after[i], reply, sent + more, next[i], next[i + 1])
    {
      if i < n {
        assert ChannelDone(slot, i, was[i], now[i], reply, sent, at[i], at[i + 1]);
        StaysDone(slot, i, was[i], now[i], reply, sent, more, at[i], at[i + 1]);
      }
    }
  }

  /** The frame buffer, set up for a slot. */
  predicate Headed(cfg: seq<half>, slot: byte) {
    && |cfg| == BUF_SIZE && cfg[0] == CPU_TO_FPGA && cfg[1] % TWO_8 == CFG_TYPE_FT3
    && cfg[2] == slot && cfg[3] == FT3_CFG_WORDS
  }

  /** Fills in port and configuration. */
  method Prepare(cfg: array<half>, slot: byte, port: byte, data: Config)
    requires cfg.Length == BUF_SIZE && Headed(cfg[..], slot)
    modifies cfg
    ensures Headed(cfg[..], slot) && cfg[1] == CFG_TYPE_FT3 + port * TWO_8 && cfg[HEAD..HEAD + FT3_CFG_WORDS] == data
  {
    cfg[1] := cfg[1] % TWO_8 + port * TWO_8;
    var i := 0;
    while i < FT3_CFG_WORDS
      invariant 0 <= i <= FT3_CFG_WORDS
      invariant Headed(cfg[..], slot) && cfg[1] == CFG_TYPE_FT3 + port * TWO_8
      invariant cfg[HEAD..HEAD + i] == data[..i]
    {
      cfg[HEAD + i] := data[i];
      i := i + 1;
    }
  }

  /** One VALID channel: two transfers of its frame, then PASS with the copy read back, or FAIL. */
  method SendChannel(spi: Spi, cfg: array<half>, bak: array<half>, slot: byte, port: byte, c: Channel)
    returns (d: Channel)
    requires cfg != bak && cfg.Length == bak.Length == BUF_SIZE && Headed(cfg[..], slot)
    requires |c.data| == FT3_CFG_WORDS && c.state == CFG_VALID
    modifies spi, cfg, bak
    ensures Headed(cfg[..], slot)
    ensures spi.sent == old(spi.sent) + [Frame(slot, port, c.data), Frame(slot, port, c.data)]
    ensures d == Outcome(c, spi.reply, |old(spi.sent)|)
  {
    Prepare(cfg, slot, port, c.data);
    ghost var n := |spi.sent|;
    var r := SendCfg(spi, cfg, bak, FT3_CFG_BYTES);
    FrameBuilt(cfg[..], slot, port, c.data);
    AcceptsExactlyEchoes(cfg[..], bak[..], FT3_CFG_BYTES);
    ReplyConfirms(spi.reply, n + 1, cfg[..], bak[..], c.data);
    if r == 0 {
      d := c.(state := CFG_PASS, bak := bak[HEAD..HEAD + FT3_CFG_WORDS]);
    } else {
      d := c.(state := CFG_FAIL);
    }
  }

  lemma FrameBuilt(cfg: seq<half>, slot: byte, port: byte, data: Config)
    requires Headed(cfg, slot) && cfg[1] == CFG_TYPE_FT3 + port * TWO_8
    requires cfg[HEAD..HEAD + FT3_CFG_WORDS] == data && cfg[HEAD + FT3_CFG_WORDS] == Sum16(data)
    ensures cfg[..HEAD + FT3_CFG_WORDS + 1] == Frame(slot, port, data)
  {
    assert cfg[..HEAD + FT3_CFG_WORDS + 1]
        == cfg[..HEAD] + cfg[HEAD..HEAD + FT3_CFG_WORDS] + [cfg[HEAD + FT3_CFG_WORDS]];
  }

  lemma ReplyConfirms(reply: (nat, nat) -> half, n: nat, cfg: seq<half>, bak: seq<half>, data: Config)
    requires |cfg| == |bak| == BUF_SIZE && cfg[HEAD..HEAD + FT3_CFG_WORDS] == data
    requires bak[..21] == Replied(reply, n, 21)
    ensures Echoes(cfg, bak, FT3_CFG_BYTES) <==> Confirms(reply, n, data)
    ensures Confirms(reply, n, data) ==> bak[HEAD..HEAD + FT3_CFG_WORDS] == data
  {
    var echo := bak[HEAD..HEAD + FT3_CFG_WORDS];
    assert bak[..21][0] == reply(n, 0) && bak[..21][20] == reply(n, 20);
    assert echo == bak[..21][HEAD..HEAD + FT3_CFG_WORDS];
    assert forall i {:trigger echo[i]} :: 0 <= i < FT3_CFG_WORDS ==> echo[i] == reply(n, HEAD + i);
    if Confirms(reply, n, data) {
      assert echo == data;
    } else if echo == data {
      assert forall i :: 0 <= i < FT3_CFG_WORDS ==> reply(n, HEAD + i) == echo[i];
    }
  }

  /** The VALID channels of one direction, in order; the others are passed over. */
  method SendChannels(spi: Spi, cfg: array<half>, bak: array<half>, slot: byte, chs: array<Channel>)
    returns (ghost at: seq<nat>)
    requires cfg != bak && cfg.Length == bak.Length == BUF_SIZE && Headed(cfg[..], slot)
    requires chs.Length == CHANNELS && Configs(chs[..])
    modifies spi, cfg, bak, chs
    ensures Headed(cfg[..], slot)
    ensures Progress(slot, old(chs[..]), chs[..], spi.reply, old(spi.sent), spi.sent, at, CHANNELS)
  {
    ghost var was, before := chs[..], spi.sent;
    at := [|spi.sent|];
    var i := 0;
    while i < CHANNELS
      invariant 0 <= i <= CHANNELS && Headed(cfg[..], slot)
      invariant Progress(slot, was, chs[..], spi.reply, before, spi.sent, at, i)
    {
      ghost var done, sent := chs[..], spi.sent;
      assert done[i] == was[i];
      if chs[i].state == CFG_VALID {
        ghost var f := Frame(slot, i, was[i].data);
        var d := SendChannel(spi, cfg, bak, slot, i, chs[i]);
        ProgressNext(slot, was, done, spi.reply, before, sent, at, i, d, [f, f]);
        chs[i] := d;
        assert chs[..] == done[i := d];
      } else {
        ProgressNext(slot, was, done, spi.reply, before, sent, at, i, was[i], []);
        assert sent + [] == sent && done[i := was[i]] == done;
      }
      at := at + [|spi.sent|];
      i := i + 1;
    }
  }

  /** All FT3 channels of a slot, transmit channels first. */
  method SendFt3Cfg(spi: Spi, cfg: array<half>, bak: array<half>, slot: byte, tx: array<Channel>, rx: array<Channel>)
    returns (ghost between: seq<seq<half>>, ghost txAt: seq<nat>, ghost rxAt: seq<nat>)
    requires cfg != bak && cfg.Length == bak.Length == BUF_SIZE && slot < 4
    requires tx != rx && tx.Length == rx.Length == CHANNELS && Configs(tx[..]) && Configs(rx[..])
    modifies spi, cfg, bak, tx, rx
    ensures Progress(slot, old(tx[..]), tx[..], spi.reply, old(spi.sent), between, txAt, CHANNELS)
    ensures Progress(slot, old(rx[..]), rx[..], spi.reply, between, spi.sent, rxAt, CHANNELS)
  {
    forall i | 0 <= i < BUF_SIZE {
      cfg[i] := 0;
    }
    forall i | 0 <= i < BUF_SIZE {
      bak[i] := 0;
    }
    cfg[0], cfg[1], cfg[2], cfg[3] := CPU_TO_FPGA, CFG_TYPE_FT3, slot, FT3_CFG_WORDS;
    ghost var rxWas := rx[..];
    txAt := SendChannels(spi, cfg, bak, slot, tx);
    between := spi.sent;
    assert rx[..] == rxWas;
    ghost var txNow := tx[..];
    rxAt := SendChannels(spi, cfg, bak, slot, rx);
    assert tx[..] == txNow;
  }

  /**
   After configuring: nothing is left VALID; a VALID channel is now PASS exactly when the second transfer
   of its own frame brought back its echo, and then its copy equals its configuration; channels that were
   not VALID are untouched.
   */
  lemma ConfiguredChannels(slot: byte, was: seq<Channel>, now: seq<Channel>, reply: (nat, nat) -> half,
                           before: seq<seq<half>>, sent: seq<seq<half>>, at: seq<nat>, i: nat)
    requires Configs(was) && Progress(slot, was, now, reply, before, sent, at, CHANNELS) && i < CHANNELS
    ensures var c, d := was[i], now[i];
      && d.state != CFG_VALID && d.data == c.data
      && (c.state != CFG_VALID ==> d == c)
      && (c.state == CFG_VALID ==>
            && at[i] + 1 < |sent| && sent[at[i] + 1] == Frame(slot, i, c.data)
            && (d.state == CFG_PASS || d.state == CFG_FAIL)
            && (d.state == CFG_PASS <==> Confirms(reply, at[i] + 1, c.data))
            && (d.state == CFG_PASS ==> d.bak == d.data)
            && (d.state == CFG_FAIL ==> d.bak == c.bak))
  {
    assert ChannelDone(slot, i, was[i], now[i], reply, sent, at[i], at[i + 1]);
  }

  /** The states by their numbers: 1 is to be configured, 2 has passed and 3 has failed. */
  lemma ConfiguredByNumbers(slot: byte, was: seq<Channel>, now: seq<Channel>, reply: (nat, nat) -> half,
                            before: seq<seq<half>>, sent: seq<seq<half>>, at: seq<nat>, i: nat)
    requires Configs(was) && Progress(slot, was, now, reply, before, sent, at, CHANNELS) && i < 32
    ensures was[i].state != 1 ==> now[i] == was[i]
    ensures was[i].state == 1 ==>
      var echoed := reply(at[i] + 1, 0) == 0x4321
        && (forall k :: 0 <= k < 16 ==> reply(at[i] + 1, 4 + k) == was[i].data[k])
        && reply(at[i] + 1, 20) == Sum(was[i].data) % 0x1_0000;
      now[i] == if echoed then was[i].(state := 2, bak := was[i].data) else was[i].(state := 3)
  {
    ConfiguredChannels(slot, was, now, reply, before, sent, at, i);
    assert ChannelDone(slot, i, was[i], now[i], reply, sent, at[i], at[i + 1]);
  }

  /** As many transfers as twice the VALID channels; so configuring again sends nothing and changes nothing. */
  lemma NothingLeftToSend(slot: byte, was: seq<Channel>, now: seq<Channel>, reply: (nat, nat) -> half,
                          before: seq<seq<half>>, sent: seq<seq<half>>, at: seq<nat>)
    requires Configs(was) && Progress(slot, was, now, reply, before, sent, at, CHANNELS)
    requires forall i :: 0 <= i < CHANNELS ==> was[i].state != CFG_VALID
    ensures sent == before && now == was
  {
    forall i {:trigger at[i + 1]} | 0 <= i < CHANNELS ensures at[i + 1] == at[i] && now[i] == was[i] {
      assert ChannelDone(slot, i, was[i], now[i], reply, sent, at[i], at[i + 1]);
    }
    NoTransfers(was, at, CHANNELS);
  }

  lemma {:induction false} NoTransfers(was: seq<Channel>, at: seq<nat>, n: nat)
    requires n < |at| && n <= |was|
    requires forall i {:trigger at[i + 1]} :: 0 <= i < n ==> at[i + 1] == at[i]
    ensures at[n] == at[0]
  {
    if n > 0 {
      NoTransfers(was, at, n - 1);
      var k := n - 1;
      assert at[k + 1] == at[k];
    }
  }
}
