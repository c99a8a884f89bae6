/**
The embedded SHA-256 (FIPS 180-4): its loops against the recursive definition of
the standard, the padding rule of section 5.1.1, and the shape of the result.
 */
module Sha256 {
  import opened Common
  import Audit

  type Word = bv32

  datatype State = State(a: Word, b: Word, c: Word, d: Word, e: Word, f: Word, g: Word, h: Word)

  const K: seq<Word> := [
    0x428a2f98, 0x71374491, 0xb5c0fbcf, 0xe9b5dba5, 0x3956c25b, 0x59f111f1, 0x923f82a4, 0xab1c5ed5,
    0xd807aa98, 0x12835b01, 0x243185be, 0x550c7dc3, 0x72be5d74, 0x80deb1fe, 0x9bdc06a7, 0xc19bf174,
    0xe49b69c1, 0xefbe4786, 0x0fc19dc6, 0x240ca1cc, 0x2de92c6f, 0x4a7484aa, 0x5cb0a9dc, 0x76f988da,
    0x983e5152, 0xa831c66d, 0xb00327c8, 0xbf597fc7, 0xc6e00bf3, 0xd5a79147, 0x06ca6351, 0x14292967,
    0x27b70a85, 0x2e1b2138, 0x4d2c6dfc, 0x53380d13, 0x650a7354, 0x766a0abb, 0x81c2c92e, 0x92722c85,
    0xa2bfe8a1, 0xa81a664b, 0xc24b8b70, 0xc76c51a3, 0xd192e819, 0xd6990624, 0xf40e3585, 0x106aa070,
    0x19a4c116, 0x1e376c08, 0x2748774c, 0x34b0bcb5, 0x391c0cb3, 0x4ed8aa4a, 0x5b9cca4f, 0x682e6ff3,
    0x748f82ee, 0x78a5636f, 0x84c87814, 0x8cc70208, 0x90befffa, 0xa4506ceb, 0xbef9a3f7, 0xc67178f2
  ]

  const H_INIT := State(0x6a09e667, 0xbb67ae85, 0x3c6ef372, 0xa54ff53a, 0x510e527f, 0x9b05688c, 0x1f83d9ab, 0x5be0cd19)

  /** Addition modulo 2^32. */
  function Add(x: Word, y: Word): Word { x + y }
  function Ch(x: Word, y: Word, z: Word): Word { (x & y) ^ (!x & z) }
  function Maj(x: Word, y: Word, z: Word): Word { (x & y) ^ (x & z) ^ (y & z) }
  function BigSigma0(x: Word): Word { x.RotateRight(2) ^ x.RotateRight(13) ^ x.RotateRight(22) }
  function BigSigma1(x: Word): Word { x.RotateRight(6) ^ x.RotateRight(11) ^ x.RotateRight(25) }
  function SmallSigma0(x: Word): Word { x.RotateRight(7) ^ x.RotateRight(18) ^ (x >> 3) }
  function SmallSigma1(x: Word): Word { x.RotateRight(17) ^ x.RotateRight(19) ^ (x >> 10) }

  // ---------------------------------------------------------------------
  // The standard's definition
  // ---------------------------------------------------------------------

  function BeWord(b0: Byte, b1: Byte, b2: Byte, b3: Byte): Word {
    (b0 * 0x100_0000 + b1 * 0x1_0000 + b2 * 0x100 + b3) as Word
  }

  function Mix(w2: Word, w7: Word, w15: Word, w16: Word): Word {
    Add(Add(Add(SmallSigma1(w2), w7), SmallSigma0(w15)), w16)
  }

  /** The message schedule. */
  function W(block: seq<Byte>, t: nat): Word
    requires |block| == 64 && t < 64
  {
    if t < 16 then BeWord(block[t * 4], block[t * 4 + 1], block[t * 4 + 2], block[t * 4 + 3])
    else Mix(W(block, t - 2), W(block, t - 7), W(block, t - 15), W(block, t - 16))
  }

  function Round(s: State, k: Word, w: Word): State {
    var t1 := Add(Add(Add(Add(s.h, BigSigma1(s.e)), Ch(s.e, s.f, s.g)), k), w);
    var t2 := Add(BigSigma0(s.a), Maj(s.a, s.b, s.c));
    State(Add(t1, t2), s.a, s.b, s.c, Add(s.d, t1), s.e, s.f, s.g)
  }

  function Rounds(s: State, block: seq<Byte>, t: nat): State
    requires |block| == 64 && t <= 64
  {
    if t == 0 then s else Round(Rounds(s, block, t - 1), K[t - 1], W(block, t - 1))
  }

  function Plus(x: State, y: State): State {
    State(Add(x.a, y.a), Add(x.b, y.b), Add(x.c, y.c), Add(x.d, y.d),
          Add(x.e, y.e), Add(x.f, y.f), Add(x.g, y.g), Add(x.h, y.h))
  }

  function Compress(s: State, block: seq<Byte>): State
    requires |block| == 64
  {
    Plus(s, Rounds(s, block, 64))
  }

  /** All blocks of a padded message, one after the other. */
  function Digest(s: State, msg: seq<Byte>): State
    requires |msg| % 64 == 0
    decreases |msg|
  {
    if msg == [] then s else Digest(Compress(s, msg[..64]), msg[64..])
  }

  // ---------------------------------------------------------------------
  // Padding
  // ---------------------------------------------------------------------

  function BeBytes(n: nat, k: nat): (r: seq<Byte>)
    ensures |r| == k
  {
    if k == 0 then [] else BeBytes(n / 256, k - 1) + [n % 256]
  }

  function Blanks(n: nat): (r: seq<Byte>)
    ensures |r| == n
  {
    if n == 0 then [] else [0] + Blanks(n - 1)
  }

  function Gap(n: nat): nat {
    (119 - n % 64) % 64
  }

  /** A 1 bit, zeros, and the length in bits as a 64-bit number. */
  function Pad(data: seq<Byte>): seq<Byte> {
    data + [0x80] + Blanks(Gap(|data|)) + BeBytes(|data| * 8 % U64_LIMIT, 8)
  }

  lemma PadLength(data: seq<Byte>)
    ensures |Pad(data)| % 64 == 0 && |data| + 9 <= |Pad(data)| < |data| + 73
  {
    hide Blanks, BeBytes, Gap;
    GapFills(|data|);
  }

  lemma GapFills(n: nat)
    ensures (n + 1 + Gap(n) + 8) % 64 == 0 && Gap(n) < 64
  {
  }

  function Pow256(k: nat): nat {
    if k == 0 then 1 else 256 * Pow256(k - 1)
  }

  lemma {:induction false} BeBytesInjective(m: nat, n: nat, k: nat)
    requires m < Pow256(k) && n < Pow256(k) && BeBytes(m, k) == BeBytes(n, k)
    ensures m == n
  {
    if k > 0 {
      var x, y := BeBytes(m, k), BeBytes(n, k);
      assert x[k - 1] == m % 256 && y[k - 1] == n % 256;
      assert x[..k - 1] == BeBytes(m / 256, k - 1) && y[..k - 1] == BeBytes(n / 256, k - 1);
      BeBytesInjective(m / 256, n / 256, k - 1);
    }
  }

  lemma EightBytes()
    ensures Pow256(8) == U64_LIMIT
  {
    assert Pow256(2) == 0x1_0000;
    assert Pow256(4) == 0x1_0000_0000;
    assert Pow256(6) == 0x1_0000_0000_0000;
  }

  lemma SameLength(m: nat, n: nat)
    requires m * 8 % U64_LIMIT == n * 8 % U64_LIMIT && n <= m < n + 64
    ensures m == n
  {
  }

  /** Distinct messages stay distinct, even where the length field has wrapped. */
  lemma PadInjective(x: seq<Byte>, y: seq<Byte>)
    requires Pad(x) == Pad(y)
    ensures x == y
  {
    var p, q := Pad(x), Pad(y);
    PadLength(x);
    PadLength(y);
    var n := |p| - 8;
    assert p[n..] == BeBytes(|x| * 8 % U64_LIMIT, 8) && q[n..] == BeBytes(|y| * 8 % U64_LIMIT, 8);
    EightBytes();
    BeBytesInjective(|x| * 8 % U64_LIMIT, |y| * 8 % U64_LIMIT, 8);
    if |x| >= |y| {
      SameLength(|x|, |y|);
    } else {
      SameLength(|y|, |x|);
    }
    assert p[..|x|] == x && q[..|y|] == y;
  }

  // ---------------------------------------------------------------------
  // Hexadecimal output
  // ---------------------------------------------------------------------

  function HexDigit(d: nat): (c: char)
    requires d < 16
    ensures Audit.IsHexDigit(c)
  {
    if d < 10 then ('0' as int + d) as char else ('a' as int + d - 10) as char
  }

  function Hex(n: nat, k: nat): (s: string)
    ensures |s| == k && Audit.IsHex(s)
  {
    if k == 0 then "" else Hex(n / 16, k - 1) + [HexDigit(n % 16)]
  }

  function Hex8(w: Word): string {
    Hex(w as nat, 8)
  }

  function StateWords(s: State): (r: seq<Word>)
    ensures |r| == 8
  {
    [s.a, s.b, s.c, s.d, s.e, s.f, s.g, s.h]
  }

  function HexWords(ws: seq<Word>): (s: string)
    ensures |s| == 8 * |ws| && Audit.IsHex(s)
  {
    if ws == [] then "" else Hex8(ws[0]) + HexWords(ws[1..])
  }

  /** SHA-256 by the standard. */
  function Sha(data: seq<Byte>): (s: string)
    ensures |s| == 64 && Audit.IsHex(s)
  {
    PadLength(data);
    HexWords(StateWords(Digest(H_INIT, Pad(data))))
  }

  /** Whatever the text encoding, the chain's assumption on its digest holds. */
  lemma ShaIsDigest(encode: string -> seq<Byte>)
    ensures Audit.IsDigest(s => Sha(encode(s)))
  {
    hide Sha, Audit.IsHex;
    var h := s => Sha(encode(s));
    forall s: string ensures |h(s)| == 64 && Audit.IsHex(h(s)) {
      assert h(s) == Sha(encode(s));
    }
  }

  // ---------------------------------------------------------------------
  // The code
  // ---------------------------------------------------------------------

  lemma BlanksMore(n: nat)
    ensures Blanks(n) + [0] == Blanks(n + 1)
  {
    if n > 0 {
      BlanksMore(n - 1);
      assert Blanks(n) + [0] == [0] + (Blanks(n - 1) + [0]);
    }
  }

  lemma GapEnds(n: nat, z: nat)
    requires z <= Gap(n)
    ensures (n + 1 + z) % 64 == 56 <==> z == Gap(n)
  {
  }

  method PadMessage(data: seq<Byte>) returns (msg: seq<Byte>)
    ensures msg == Pad(data)
  {
    hide Gap, Blanks, BeBytes;
    msg := data + [0x80];
    ghost var z := 0;
    assert msg == data + [0x80] + Blanks(0) by { NoBlanks(); }
    GapEnds(|data|, 0);
    while |msg| % 64 != 56
      invariant z <= Gap(|data|) && msg == data + [0x80] + Blanks(z)
      decreases Gap(|data|) - z
    {
      GapEnds(|data|, z);
      BlanksMore(z);
      assert data + [0x80] + Blanks(z) + [0] == data + [0x80] + (Blanks(z) + [0]);
      msg := msg + [0x00];
      z := z + 1;
    }
    GapEnds(|data|, z);
    msg := msg + BeBytes(|data| * 8 % U64_LIMIT, 8);
  }

  lemma NoBlanks()
    ensures Blanks(0) == []
  {
  }

  lemma WEarly(block: seq<Byte>, t: nat)
    requires |block| == 64 && t < 16
    ensures W(block, t) == BeWord(block[t * 4], block[t * 4 + 1], block[t * 4 + 2], block[t * 4 + 3])
  {
  }

  lemma WLate(block: seq<Byte>, t: nat)
    requires |block| == 64 && 16 <= t < 64
    ensures W(block, t) == Mix(W(block, t - 2), W(block, t - 7), W(block, t - 15), W(block, t - 16))
  {
  }

  method Schedule(block: seq<Byte>) returns (w: array<Word>)
    requires |block| == 64
    ensures fresh(w) && w.Length == 64 && forall t: nat | t < 64 :: w[t] == W(block, t)
  {
    hide *;
    w := new Word[64];
    for i := 0 to 16
      invariant forall t: nat | t < i :: w[t] == W(block, t)
    {
      WEarly(block, i);
      w[i] := BeWord(block[i * 4], block[i * 4 + 1], block[i * 4 + 2], block[i * 4 + 3]);
    }
    for i := 16 to 64
      invariant forall t: nat | t < i :: w[t] == W(block, t)
    {
      WLate(block, i);
      w[i] := Mix(w[i - 2], w[i - 7], w[i - 15], w[i - 16]);
    }
  }

  method CompressBlock(s: State, block: seq<Byte>) returns (r: State)
    requires |block| == 64
    ensures r == Compress(s, block)
  {
    hide W, BigSigma0, BigSigma1, Ch, Maj, Add, Plus;
    var w := Schedule(block);
    var a, b, c, d, e, f, g, hh := s.a, s.b, s.c, s.d, s.e, s.f, s.g, s.h;
    for i := 0 to 64
      invariant State(a, b, c, d, e, f, g, hh) == Rounds(s, block, i)
    {
      var t1 := Add(Add(Add(Add(hh, BigSigma1(e)), Ch(e, f, g)), K[i]), w[i]);
      var t2 := Add(BigSigma0(a), Maj(a, b, c));
      hh := g;
      g := f;
      f := e;
      e := Add(d, t1);
      d := c;
      c := b;
      b := a;
      a := Add(t1, t2);
    }
    r := Plus(s, State(a, b, c, d, e, f, g, hh));
  }

  method DigestBlocks(msg: seq<Byte>) returns (h: State)
    requires |msg| % 64 == 0
    ensures h == Digest(H_INIT, msg)
  {
    hide Compress;
    h := H_INIT;
    var i := 0;
    while i < |msg|
      invariant i <= |msg| && i % 64 == 0
      invariant Digest(h, msg[i..]) == Digest(H_INIT, msg)
    {
      assert msg[i..][..64] == msg[i..i + 64] && msg[i..][64..] == msg[i + 64..];
      h := CompressBlock(h, msg[i..i + 64]);
      i := i + 64;
    }
  }

  method HexOutput(ws: seq<Word>) returns (out: string)
    ensures out == HexWords(ws)
  {
    hide Hex8, Audit.IsHex;
    out := "";
    var i := 0;
    assert ws[0..] == ws;
    while i < |ws|
      invariant i <= |ws| && out + HexWords(ws[i..]) == HexWords(ws)
    {
      assert ws[i..][1..] == ws[i + 1..];
      assert out + HexWords(ws[i..]) == (out + Hex8(ws[i])) + HexWords(ws[i + 1..]);
      out := out + Hex8(ws[i]);
      i := i + 1;
    }
  }

  /** The code computes the standard's function. */
  method Sha256Hex(data: seq<Byte>) returns (out: string)
    ensures out == Sha(data)
  {
    hide Digest, Pad, HexWords, Audit.IsHex;
    var msg := PadMessage(data);
    PadLength(data);
    var h := DigestBlocks(msg);
    out := HexOutput(StateWords(h));
  }
}
