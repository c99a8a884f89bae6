/**
The configuration hand-off record: thresholds as 32-bit float patterns, the
canonical serialization, its checksum, and what the seal binds.
 */
module Handoff {
  import opened Common
  import opened Sha256
  import Audit

  const U32_LIMIT: nat := 0x1_0000_0000

  /** An IEEE 754 single-precision bit pattern. */
  type Bits = b: nat | b < U32_LIMIT

  datatype Float = Finite(value: real) | Infinite(negative: bool) | NotANumber

  function Scale(r: real, e: int): real
    decreases if e < 0 then -e else e
  {
    if e == 0 then r else if e > 0 then Scale(r * 2.0, e - 1) else Scale(r / 2.0, e + 1)
  }

  /** The number a pattern stands for. */
  function Decode(b: Bits): Float {
    var negative := b >= 0x8000_0000;
    var exponent := b / 0x80_0000 % 256;
    var fraction := b % 0x80_0000;
    if exponent == 255 then
      if fraction == 0 then Infinite(negative) else NotANumber
    else
      var magnitude := if exponent == 0 then Scale(fraction as real, -149) else Scale((0x80_0000 + fraction) as real, exponent - 150);
      Finite(if negative then -magnitude else magnitude)
  }

  /** Comparison as the hardware does it: false on anything that is no number. */
  predicate AtMost(a: Bits, b: Bits) {
    match (Decode(a), Decode(b))
    case (Finite(x), Finite(y)) => x <= y
    case (Infinite(n), Infinite(m)) => n || !m
    case (Infinite(n), Finite(_)) => n
    case (Finite(_), Infinite(m)) => !m
    case _ => false
  }

  predicate InUnit(b: Bits) {
    Decode(b).Finite? && 0.0 <= Decode(b).value <= 1.0
  }

  datatype Thresholds = Thresholds(
    repetition: Bits, selfReferential: Bits, tokenVelocity: Bits, toolRetry: Bits,
    soft: Bits, medium: Bits, hard: Bits, window: U64)

  const MIGRATION_MAGIC: U64 := 0x474C_4D4D_4947_5231
  const MIGRATION_VERSION: nat := 1

  datatype Buffer = Buffer(
    magic: U64, version: Bits, dirty: bool, reserved: seq<Byte>,
    repetition: Bits, selfReferential: Bits, tokenVelocity: Bits, toolRetry: Bits,
    soft: Bits, medium: Bits, hard: Bits, window: Bits, timestamp: U64, checksum: seq<Byte>)

  /** A digest of bytes as 64 hexadecimal characters. */
  ghost predicate IsByteDigest(d: seq<Byte> -> string) {
    forall bs :: |d(bs)| == 64 && Audit.IsHex(d(bs))
  }

  // ---------------------------------------------------------------------
  // Serialization
  // ---------------------------------------------------------------------

  function LeBytes(n: nat, k: nat): (r: seq<Byte>)
    ensures |r| == k
  {
    if k == 0 then [] else [n % 256] + LeBytes(n / 256, k - 1)
  }

  lemma {:induction false} LeBytesInjective(m: nat, n: nat, k: nat)
    requires m < Pow256(k) && n < Pow256(k) && LeBytes(m, k) == LeBytes(n, k)
    ensures m == n
  {
    if k > 0 {
      var x, y := LeBytes(m, k), LeBytes(n, k);
      assert x[0] == m % 256 && y[0] == n % 256;
      assert x[1..] == LeBytes(m / 256, k - 1) && y[1..] == LeBytes(n / 256, k - 1);
      LeBytesInjective(m / 256, n / 256, k - 1);
    }
  }

  function FlagByte(b: bool): Byte {
    if b then 1 else 0
  }

  /** Every logical field but the checksum, little-endian, in fixed order. */
  function Payload(b: Buffer): seq<Byte> {
    LeBytes(b.magic, 8) + (LeBytes(b.version, 4) + ([FlagByte(b.dirty)] +
      (LeBytes(b.repetition, 4) + (LeBytes(b.selfReferential, 4) + (LeBytes(b.tokenVelocity, 4) + (LeBytes(b.toolRetry, 4) +
      (LeBytes(b.soft, 4) + (LeBytes(b.medium, 4) + (LeBytes(b.hard, 4) +
      (LeBytes(b.window, 4) + LeBytes(b.timestamp, 8)))))))))))
  }

  /** What the seal covers: everything but the padding and the seal itself. */
  predicate SameFields(x: Buffer, y: Buffer) {
    x == y.(reserved := x.reserved, checksum := x.checksum)
  }

  lemma CutBytes(x: seq<Byte>, y: seq<Byte>, u: seq<Byte>, v: seq<Byte>)
    requires |x| == |y| && x + u == y + v
    ensures x == y && u == v
  {
    assert (x + u)[..|x|] == x && (y + v)[..|x|] == y;
    assert (x + u)[|x|..] == u && (y + v)[|x|..] == v;
  }

  lemma FourBytes()
    ensures Pow256(4) == U32_LIMIT
  {
    assert Pow256(2) == 0x1_0000;
  }

  /** One 4-byte field off the front. */
  lemma CutField(m: Bits, n: Bits, u: seq<Byte>, v: seq<Byte>)
    requires LeBytes(m, 4) + u == LeBytes(n, 4) + v
    ensures m == n && u == v
  {
    CutBytes(LeBytes(m, 4), LeBytes(n, 4), u, v);
    FourBytes();
    LeBytesInjective(m, n, 4);
  }

  lemma CutLong(m: U64, n: U64, u: seq<Byte>, v: seq<Byte>)
    requires LeBytes(m, 8) + u == LeBytes(n, 8) + v
    ensures m == n && u == v
  {
    CutBytes(LeBytes(m, 8), LeBytes(n, 8), u, v);
    EightBytes();
    LeBytesInjective(m, n, 8);
  }

  function Control(b: Buffer): seq<Byte> {
    LeBytes(b.soft, 4) + (LeBytes(b.medium, 4) + (LeBytes(b.hard, 4) + (LeBytes(b.window, 4) + LeBytes(b.timestamp, 8))))
  }

  lemma ControlInjective(x: Buffer, y: Buffer)
    requires Control(x) == Control(y)
    ensures x.soft == y.soft && x.medium == y.medium && x.hard == y.hard && x.window == y.window && x.timestamp == y.timestamp
  {
    hide LeBytes;
    var x4, y4 := LeBytes(x.window, 4) + LeBytes(x.timestamp, 8), LeBytes(y.window, 4) + LeBytes(y.timestamp, 8);
    var x3, y3 := LeBytes(x.hard, 4) + x4, LeBytes(y.hard, 4) + y4;
    var x2, y2 := LeBytes(x.medium, 4) + x3, LeBytes(y.medium, 4) + y3;
    CutField(x.soft, y.soft, x2, y2);
    CutField(x.medium, y.medium, x3, y3);
    CutField(x.hard, y.hard, x4, y4);
    CutField(x.window, y.window, LeBytes(x.timestamp, 8), LeBytes(y.timestamp, 8));
    assert LeBytes(x.timestamp, 8) + [] == LeBytes(y.timestamp, 8) + [];
    CutLong(x.timestamp, y.timestamp, [], []);
  }

  function Signals(b: Buffer): seq<Byte> {
    LeBytes(b.repetition, 4) + (LeBytes(b.selfReferential, 4) + (LeBytes(b.tokenVelocity, 4) + (LeBytes(b.toolRetry, 4) + Control(b))))
  }

  lemma SignalsInjective(x: Buffer, y: Buffer)
    requires Signals(x) == Signals(y)
    ensures x.repetition == y.repetition && x.selfReferential == y.selfReferential
    ensures x.tokenVelocity == y.tokenVelocity && x.toolRetry == y.toolRetry && Control(x) == Control(y)
  {
    hide LeBytes, Control;
    var x3, y3 := LeBytes(x.toolRetry, 4) + Control(x), LeBytes(y.toolRetry, 4) + Control(y);
    var x2, y2 := LeBytes(x.tokenVelocity, 4) + x3, LeBytes(y.tokenVelocity, 4) + y3;
    var x1, y1 := LeBytes(x.selfReferential, 4) + x2, LeBytes(y.selfReferential, 4) + y2;
    CutField(x.repetition, y.repetition, x1, y1);
    CutField(x.selfReferential, y.selfReferential, x2, y2);
    CutField(x.tokenVelocity, y.tokenVelocity, x3, y3);
    CutField(x.toolRetry, y.toolRetry, Control(x), Control(y));
  }

  /** The serialization determines every logical field, bit for bit. */
  lemma PayloadInjective(x: Buffer, y: Buffer)
    requires Payload(x) == Payload(y)
    ensures SameFields(x, y)
  {
    hide LeBytes;
    var x1, y1 := [FlagByte(x.dirty)] + Signals(x), [FlagByte(y.dirty)] + Signals(y);
    CutLong(x.magic, y.magic, LeBytes(x.version, 4) + x1, LeBytes(y.version, 4) + y1);
    CutField(x.version, y.version, x1, y1);
    CutBytes([FlagByte(x.dirty)], [FlagByte(y.dirty)], Signals(x), Signals(y));
    assert [FlagByte(x.dirty)][0] == [FlagByte(y.dirty)][0];
    SignalsInjective(x, y);
    ControlInjective(x, y);
  }

  // ---------------------------------------------------------------------
  // Checksum
  // ---------------------------------------------------------------------

  function Nibble(c: char): (n: nat)
    ensures n < 16
  {
    if '0' <= c <= '9' then c as int - '0' as int
    else if 'a' <= c <= 'f' then c as int - 'a' as int + 10
    else if 'A' <= c <= 'F' then c as int - 'A' as int + 10
    else 0
  }

  function CharAt(s: string, k: nat): char {
    if k < |s| then s[k] else '0'
  }

  function ByteAt(hex: string, i: nat): Byte {
    Nibble(CharAt(hex, 2 * i)) * 16 + Nibble(CharAt(hex, 2 * i + 1))
  }

  /** 64 hexadecimal characters as 32 bytes. */
  function HexToBytes(hex: string): (r: seq<Byte>)
    ensures |r| == 32
  {
    seq(32, i requires i >= 0 => ByteAt(hex, i))
  }

  method Hex64ToBytes(hex: string) returns (out: array<Byte>)
    ensures fresh(out) && out[..] == HexToBytes(hex)
  {
    out := new Byte[32](_ => 0);
    for i := 0 to 32
      invariant forall k | 0 <= k < i :: out[k] == ByteAt(hex, k)
    {
      var hi := Nibble(CharAt(hex, 2 * i));
      var lo := Nibble(CharAt(hex, 2 * i + 1));
      out[i] := hi * 16 + lo;
    }
  }

  lemma NibbleInjective(c: char, d: char)
    requires Audit.IsHexDigit(c) && Audit.IsHexDigit(d) && Nibble(c) == Nibble(d)
    ensures c == d
  {
  }

  lemma HexToBytesInjective(x: string, y: string)
    requires |x| == 64 && |y| == 64 && Audit.IsHex(x) && Audit.IsHex(y) && HexToBytes(x) == HexToBytes(y)
    ensures x == y
  {
    forall k | 0 <= k < 64
      ensures x[k] == y[k]
    {
      var i := k / 2;
      assert HexToBytes(x)[i] == ByteAt(x, i) && HexToBytes(y)[i] == ByteAt(y, i);
      NibbleInjective(x[2 * i], y[2 * i]);
      NibbleInjective(x[2 * i + 1], y[2 * i + 1]);
    }
  }

  function Checksum(d: seq<Byte> -> string, b: Buffer): seq<Byte> {
    HexToBytes(d(Payload(b)))
  }

  function Seal(d: seq<Byte> -> string, b: Buffer): Buffer {
    b.(checksum := Checksum(d, b))
  }

  predicate IsValid(d: seq<Byte> -> string, b: Buffer) {
    b.magic == MIGRATION_MAGIC && b.version == MIGRATION_VERSION && b.checksum == Checksum(d, b)
  }

  /** Sealing validates exactly the records with the right header, whatever the
      checksum held before, and sealing again changes nothing. */
  lemma SealValidates(d: seq<Byte> -> string, b: Buffer)
    ensures IsValid(d, Seal(d, b)) <==> b.magic == MIGRATION_MAGIC && b.version == MIGRATION_VERSION
    ensures Seal(d, Seal(d, b)) == Seal(d, b) && SameFields(b, Seal(d, b))
  {
    hide LeBytes;
    assert Payload(Seal(d, b)) == Payload(b);
  }

  /** Changing any logical field of a valid record, while it stays valid under
      the same checksum, exhibits two byte strings with the same digest. */
  lemma SealBinds(d: seq<Byte> -> string, x: Buffer, y: Buffer)
    requires IsByteDigest(d) && IsValid(d, x) && IsValid(d, y) && x.checksum == y.checksum && !SameFields(x, y)
    ensures Payload(x) != Payload(y) && d(Payload(x)) == d(Payload(y))
  {
    hide Payload, HexToBytes, Audit.IsHex, SameFields;
    if Payload(x) == Payload(y) {
      PayloadInjective(x, y);
    }
    HexToBytesInjective(d(Payload(x)), d(Payload(y)));
  }

  // ---------------------------------------------------------------------
  // Thresholds in and out
  // ---------------------------------------------------------------------

  function FromThresholds(t: Thresholds, dirty: bool, timestamp: U64): Buffer {
    Buffer(MIGRATION_MAGIC, MIGRATION_VERSION, dirty, [0, 0, 0],
           t.repetition, t.selfReferential, t.tokenVelocity, t.toolRetry,
           t.soft, t.medium, t.hard, t.window % U32_LIMIT, timestamp, seq(32, _ => 0))
  }

  function ToThresholds(b: Buffer): Thresholds {
    Thresholds(b.repetition, b.selfReferential, b.tokenVelocity, b.toolRetry, b.soft, b.medium, b.hard, b.window)
  }

  /** A record carries thresholds faithfully exactly when the window fits 32 bits. */
  lemma CarriedFaithfully(d: seq<Byte> -> string, t: Thresholds, dirty: bool, timestamp: U64)
    ensures ToThresholds(Seal(d, FromThresholds(t, dirty, timestamp))) == t <==> t.window < U32_LIMIT
  {
    hide Checksum;
  }
}
