/**
The hash-chained audit log. The digest is a parameter: any function to 64
lower-case hexadecimal characters. Statements about tampering exhibit a
collision of it.
 */
module Audit {
  import opened Common

  datatype Entry = Entry(
    sequence: nat,
    timestamp: nat,
    actor: string,
    action: string,
    target: string,
    hash: string,
    prevHash: string)

  datatype VerifyError =
    | ChainBroken(sequence: nat, expected: string, got: string)
    | HashMismatch(sequence: nat, computed: string, stored: string)

  // ---------------------------------------------------------------------
  // Text
  // ---------------------------------------------------------------------

  predicate IsHexDigit(c: char) {
    '0' <= c <= '9' || 'a' <= c <= 'f'
  }

  ghost predicate IsHex(s: string) {
    forall k | 0 <= k < |s| :: IsHexDigit(s[k])
  }

  /** A digest function yields 64 hexadecimal characters. */
  ghost predicate IsDigest(h: string -> string) {
    forall s :: |h(s)| == 64 && IsHex(h(s))
  }

  function Digit(d: nat): char
    requires d < 10
  {
    ('0' as int + d) as char
  }

  /** Decimal notation. */
  function Dec(n: nat): (s: string)
    ensures s != [] && IsHex(s)
  {
    if n < 10 then [Digit(n)] else Dec(n / 10) + [Digit(n % 10)]
  }

  function Zeros(n: nat): (s: string)
    ensures |s| == n && IsHex(s)
  {
    if n == 0 then "" else ['0'] + Zeros(n - 1)
  }

  const GENESIS := Zeros(64)

  function Payload(e: Entry): string {
    Dec(e.sequence) + "|" + (Dec(e.timestamp) + "|" + (e.actor + "|" + (e.action + "|" + (e.target + "|" + e.prevHash))))
  }

  /** No text field holds the separator. */
  predicate BarFreeEntry(e: Entry) {
    '|' !in e.actor && '|' !in e.action && '|' !in e.target
  }

  ghost predicate BarFree(es: seq<Entry>) {
    forall k | 0 <= k < |es| :: BarFreeEntry(es[k])
  }

  // ---------------------------------------------------------------------
  // The chain
  // ---------------------------------------------------------------------

  function LastHash(es: seq<Entry>): string {
    if es == [] then GENESIS else es[|es| - 1].hash
  }

  /** Entry `k` links to its predecessor and hashes to what it stores. */
  predicate LinkOk(h: string -> string, es: seq<Entry>, k: nat)
    requires k < |es|
  {
    es[k].prevHash == LastHash(es[..k]) && es[k].hash == h(Payload(es[k]))
  }

  /** What is reported of a broken link: the predecessor's hash is looked at
      first, then the entry's own. */
  function LinkError(h: string -> string, es: seq<Entry>, k: nat): VerifyError
    requires k < |es|
  {
    var e := es[k];
    if e.prevHash != LastHash(es[..k]) then ChainBroken(e.sequence, LastHash(es[..k]), e.prevHash)
    else HashMismatch(e.sequence, h(Payload(e)), e.hash)
  }

  ghost predicate Verifies(h: string -> string, es: seq<Entry>) {
    forall k: nat | k < |es| :: LinkOk(h, es, k)
  }

  class AuditTrail {
    const h: string -> string
    var entries: seq<Entry>
    var lastHash: string
    var sequence: nat

    ghost predicate Valid()
      reads this
    {
      && IsDigest(h) && Verifies(h, entries)
      && sequence == |entries| % U64_LIMIT
      && lastHash == if entries == [] then "" else LastHash(entries)
    }

    constructor (digest: string -> string)
      requires IsDigest(digest)
      ensures Valid() && h == digest && entries == []
    {
      h, entries, lastHash, sequence := digest, [], "", 0;
    }

    /** Appends one entry that says what it was told and keeps the chain
        verifying. */
    method Record(timestamp: nat, actor: string, action: string, target: string) returns (hash: string)
      requires Valid()
      modifies this
      ensures Valid() && |entries| == |old(entries)| + 1 && entries[..|old(entries)|] == old(entries)
      ensures var e := entries[|old(entries)|];
              && e.timestamp == timestamp && e.actor == actor && e.action == action && e.target == target
              && e.hash == hash && e.prevHash == LastHash(old(entries))
              && (|entries| < U64_LIMIT ==> e.sequence == |entries|)
    {
      hide Payload, Dec, Zeros, Verifies, IsHex, IsDigest;
      NextSequence(|entries|);
      sequence := (sequence + 1) % U64_LIMIT;
      var prev := if lastHash == "" then Zeros(64) else lastHash;
      LastHashIsText(h, entries);
      var draft := Entry(sequence, timestamp, actor, action, target, "", prev);
      hash := h(Payload(draft));
      PayloadIgnoresHash(draft, hash);
      AppendVerifies(h, entries, draft.(hash := hash));
      entries := entries + [draft.(hash := hash)];
      lastHash := hash;
    }

    /** Accepts exactly the chains that verify, and otherwise names the first
        broken link. */
    method Verify() returns (r: Result<nat, VerifyError>)
      ensures r.Ok? <==> Verifies(h, entries)
      ensures r.Ok? ==> r.value == |entries|
      ensures r.Err? ==> exists k: nat ::
                k < |entries| && Verifies(h, entries[..k]) && !LinkOk(h, entries, k) && r.error == LinkError(h, entries, k)
    {
      hide Payload, Dec, Zeros;
      var expectedPrev := Zeros(64);
      var i := 0;
      while i < |entries|
        invariant i <= |entries| && expectedPrev == LastHash(entries[..i])
        invariant forall k: nat | k < i :: LinkOk(h, entries, k)
      {
        var entry := entries[i];
        PrefixVerifies(h, entries, i);
        if entry.prevHash != expectedPrev {
          assert !LinkOk(h, entries, i);
          return Err(ChainBroken(entry.sequence, expectedPrev, entry.prevHash));
        }
        var computed := h(Payload(entry));
        if computed != entry.hash {
          assert !LinkOk(h, entries, i);
          return Err(HashMismatch(entry.sequence, computed, entry.hash));
        }
        expectedPrev := entry.hash;
        i := i + 1;
      }
      return Ok(|entries|);
    }
  }

  lemma NextSequence(n: nat)
    ensures (n % U64_LIMIT + 1) % U64_LIMIT == (n + 1) % U64_LIMIT
    ensures n + 1 < U64_LIMIT ==> (n + 1) % U64_LIMIT == n + 1
  {
  }

  lemma PayloadIgnoresHash(e: Entry, hash: string)
    ensures Payload(e.(hash := hash)) == Payload(e)
  {
  }

  lemma LastHashIsText(h: string -> string, es: seq<Entry>)
    requires IsDigest(h) && Verifies(h, es)
    ensures |LastHash(es)| == 64 && IsHex(LastHash(es))
  {
    if es != [] {
      assert LinkOk(h, es, |es| - 1);
    }
  }

  lemma AppendVerifies(h: string -> string, es: seq<Entry>, e: Entry)
    requires Verifies(h, es) && e.prevHash == LastHash(es) && e.hash == h(Payload(e))
    ensures Verifies(h, es + [e])
  {
    forall k: nat | k < |es + [e]|
      ensures LinkOk(h, es + [e], k)
    {
      if k < |es| {
        assert LinkOk(h, es, k);
        assert (es + [e])[..k] == es[..k];
      } else {
        assert (es + [e])[..k] == es;
      }
    }
  }

  lemma PrefixVerifies(h: string -> string, es: seq<Entry>, n: nat)
    requires n <= |es| && forall k: nat | k < n :: LinkOk(h, es, k)
    ensures Verifies(h, es[..n])
  {
    forall k: nat | k < n
      ensures LinkOk(h, es[..n], k)
    {
      assert LinkOk(h, es, k);
      assert es[..n][..k] == es[..k];
    }
  }

  // ---------------------------------------------------------------------
  // The payload determines the entry
  // ---------------------------------------------------------------------

  function Bars(s: string): nat {
    if s == "" then 0 else (if s[0] == '|' then 1 else 0) + Bars(s[1..])
  }

  lemma {:induction false} BarsConcat(s: string, t: string)
    ensures Bars(s + t) == Bars(s) + Bars(t)
    decreases |s|
  {
    if s == "" {
      assert s + t == t;
    } else {
      assert (s + t)[1..] == s[1..] + t;
      BarsConcat(s[1..], t);
    }
  }

  lemma BarsJoin(s: string, t: string)
    ensures Bars(s + "|" + t) == Bars(s) + 1 + Bars(t)
  {
    BarsConcat(s + "|", t);
    BarsConcat(s, "|");
    assert "|"[1..] == "";
  }

  lemma {:induction false} NoBars(s: string)
    ensures Bars(s) == 0 <==> '|' !in s
    decreases |s|
  {
    if s != "" {
      NoBars(s[1..]);
      assert s == [s[0]] + s[1..];
    }
  }

  /** Text before the first separator is read off uniquely. */
  lemma {:induction false} CutAtBar(x: string, y: string, u: string, v: string)
    requires '|' !in x && '|' !in y && x + "|" + u == y + "|" + v
    ensures x == y && u == v
    decreases |x|
  {
    var p, q := x + "|" + u, y + "|" + v;
    assert if x == "" then p[0] == '|' else p[0] == x[0] && x[0] in x;
    assert if y == "" then q[0] == '|' else q[0] == y[0] && y[0] in y;
    if x == "" {
      assert p[1..] == u && q[1..] == v;
    } else {
      assert p[1..] == x[1..] + "|" + u && q[1..] == y[1..] + "|" + v;
      CutAtBar(x[1..], y[1..], u, v);
    }
  }

  lemma HexHasNoBar(s: string)
    requires IsHex(s)
    ensures '|' !in s
  {
  }

  lemma {:induction false} DecInjective(m: nat, n: nat)
    requires Dec(m) == Dec(n)
    ensures m == n
    decreases m
  {
    var s, t := Dec(m), Dec(n);
    assert s[|s| - 1] == Digit(m % 10) && t[|t| - 1] == Digit(n % 10);
    DecLength(m);
    DecLength(n);
    if m >= 10 {
      assert s[..|s| - 1] == Dec(m / 10) && t[..|t| - 1] == Dec(n / 10);
      DecInjective(m / 10, n / 10);
    }
  }

  lemma DecLength(n: nat)
    ensures |Dec(n)| == 1 <==> n < 10
  {
  }

  lemma PayloadBars(e: Entry)
    requires IsHex(e.prevHash)
    ensures Bars(Payload(e)) == 5 <==> BarFreeEntry(e)
  {
    HexHasNoBar(Dec(e.sequence));
    HexHasNoBar(Dec(e.timestamp));
    HexHasNoBar(e.prevHash);
    NoBars(Dec(e.sequence));
    NoBars(Dec(e.timestamp));
    NoBars(e.prevHash);
    NoBars(e.actor);
    NoBars(e.action);
    NoBars(e.target);
    var p5 := e.target + "|" + e.prevHash;
    var p4 := e.action + "|" + p5;
    var p3 := e.actor + "|" + p4;
    var p2 := Dec(e.timestamp) + "|" + p3;
    BarsJoin(e.target, e.prevHash);
    BarsJoin(e.action, p5);
    BarsJoin(e.actor, p4);
    BarsJoin(Dec(e.timestamp), p3);
    BarsJoin(Dec(e.sequence), p2);
  }

  /** Two entries with the same payload are the same but for the stored hash,
      as soon as one of them is free of separators. */
  lemma PayloadInjective(d: Entry, e: Entry)
    requires Payload(d) == Payload(e) && BarFreeEntry(d) && IsHex(d.prevHash) && IsHex(e.prevHash)
    ensures d == e.(hash := d.hash)
  {
    PayloadBars(d);
    PayloadBars(e);
    HexHasNoBar(Dec(d.sequence));
    HexHasNoBar(Dec(e.sequence));
    HexHasNoBar(Dec(d.timestamp));
    HexHasNoBar(Dec(e.timestamp));
    var d5, e5 := d.target + "|" + d.prevHash, e.target + "|" + e.prevHash;
    var d4, e4 := d.action + "|" + d5, e.action + "|" + e5;
    var d3, e3 := d.actor + "|" + d4, e.actor + "|" + e4;
    var d2, e2 := Dec(d.timestamp) + "|" + d3, Dec(e.timestamp) + "|" + e3;
    CutAtBar(Dec(d.sequence), Dec(e.sequence), d2, e2);
    CutAtBar(Dec(d.timestamp), Dec(e.timestamp), d3, e3);
    CutAtBar(d.actor, e.actor, d4, e4);
    CutAtBar(d.action, e.action, d5, e5);
    CutAtBar(d.target, e.target, d.prevHash, e.prevHash);
    DecInjective(d.sequence, e.sequence);
    DecInjective(d.timestamp, e.timestamp);
  }

  // ---------------------------------------------------------------------
  // Tamper evidence
  // ---------------------------------------------------------------------

  ghost predicate Collision(h: string -> string, x: string, y: string) {
    x != y && h(x) == h(y)
  }

  /** Two verifying chains of the same length and final hash, one of them free
      of separators, are the same chain, or a collision is at hand. */
  lemma {:induction false} TamperEvident(h: string -> string, a: seq<Entry>, b: seq<Entry>) returns (x: string, y: string)
    requires IsDigest(h) && Verifies(h, a) && Verifies(h, b)
    requires |a| == |b| && LastHash(a) == LastHash(b) && BarFree(a)
    ensures a == b || Collision(h, x, y)
    decreases |a|
  {
    x, y := "", "";
    if a != [] {
      var n := |a| - 1;
      assert LinkOk(h, a, n) && LinkOk(h, b, n);
      x, y := Payload(a[n]), Payload(b[n]);
      if x == y {
        PrefixVerifies(h, a, n);
        PrefixVerifies(h, b, n);
        LastHashIsText(h, a[..n]);
        LastHashIsText(h, b[..n]);
        PayloadInjective(a[n], b[n]);
        x, y := TamperEvident(h, a[..n], b[..n]);
        if a[..n] == b[..n] {
          assert a == a[..n] + [a[n]] && b == b[..n] + [b[n]];
        }
      }
    }
  }

  /** Rewriting one entry in place, hash left alone, is detected unless a
      collision is at hand. */
  lemma ForgeryDetected(h: string -> string, a: seq<Entry>, k: nat, forged: Entry) returns (x: string, y: string)
    requires IsDigest(h) && Verifies(h, a) && BarFree(a)
    requires k < |a| && forged != a[k] && forged.hash == a[k].hash
    ensures !Verifies(h, a[k := forged]) || Collision(h, x, y)
  {
    x, y := "", "";
    var b := a[k := forged];
    if Verifies(h, b) {
      x, y := TamperEvident(h, a, b);
      assert b[k] != a[k];
    }
  }

  /** `b` verifies as well as `a`, payload by payload the same, and is not `a`. */
  ghost predicate LookAlike(h: string -> string, a: seq<Entry>, b: seq<Entry>) {
    && Verifies(h, b) && b != a && |b| == |a|
    && forall k: nat | k < |a| :: Payload(b[k]) == Payload(a[k])
  }

  ghost predicate HasLookAlike(h: string -> string, a: seq<Entry>) {
    exists b :: LookAlike(h, a, b)
  }

  /** Separators in text are exactly what makes a chain ambiguous. */
  lemma AmbiguousIff(h: string -> string, a: seq<Entry>)
    requires IsDigest(h) && Verifies(h, a)
    ensures HasLookAlike(h, a) <==> !BarFree(a)
  {
    if HasLookAlike(h, a) && BarFree(a) {
      var b :| LookAlike(h, a, b);
      LookAlikeIsSame(h, a, b);
      assert false;
    }
    if !BarFree(a) {
      var k: nat :| k < |a| && !BarFreeEntry(a[k]);
      var b := MakeLookAlike(h, a, k);
    }
  }

  lemma LookAlikeIsSame(h: string -> string, a: seq<Entry>, b: seq<Entry>)
    requires IsDigest(h) && Verifies(h, a) && Verifies(h, b) && BarFree(a) && |a| == |b|
    requires forall k: nat | k < |a| :: Payload(b[k]) == Payload(a[k])
    ensures a == b
  {
    forall k: nat | k < |a|
      ensures a[k] == b[k]
    {
      assert LinkOk(h, a, k) && LinkOk(h, b, k);
      PrefixVerifies(h, a, k);
      PrefixVerifies(h, b, k);
      LastHashIsText(h, a[..k]);
      LastHashIsText(h, b[..k]);
      PayloadInjective(a[k], b[k]);
    }
  }

  lemma SplitAt(s: string) returns (x: string, y: string)
    requires '|' in s
    ensures s == x + "|" + y
  {
    var i: nat :| i < |s| && s[i] == '|';
    x, y := s[..i], s[i + 1..];
  }

  lemma JoinAssoc(x: string, y: string, z: string)
    ensures (x + "|" + y) + "|" + z == x + "|" + (y + "|" + z)
  {
  }

  /** Another way to read the same payload. */
  lemma Reread(e: Entry) returns (d: Entry)
    requires !BarFreeEntry(e)
    ensures d != e && Payload(d) == Payload(e) && d.hash == e.hash && d.prevHash == e.prevHash
  {
    hide Dec;
    var tail := e.target + "|" + e.prevHash;
    if '|' in e.actor {
      var x, y := SplitAt(e.actor);
      d := e.(actor := x, action := y, target := e.action + "|" + e.target);
      JoinAssoc(x, y, e.action + "|" + tail);
      JoinAssoc(e.action, e.target, e.prevHash);
    } else if '|' in e.action {
      var x, y := SplitAt(e.action);
      d := e.(actor := e.actor + "|" + x, action := y);
      JoinAssoc(x, y, tail);
      JoinAssoc(e.actor, x, y + "|" + tail);
    } else {
      var x, y := SplitAt(e.target);
      d := e.(actor := e.actor + "|" + e.action, action := x, target := y);
      JoinAssoc(x, y, e.prevHash);
      JoinAssoc(e.actor, e.action, x + "|" + (y + "|" + e.prevHash));
    }
    assert |d.actor| != |e.actor|;
  }

  lemma MakeLookAlike(h: string -> string, a: seq<Entry>, k: nat) returns (b: seq<Entry>)
    requires Verifies(h, a) && k < |a| && !BarFreeEntry(a[k])
    ensures LookAlike(h, a, b)
  {
    var d := Reread(a[k]);
    b := a[k := d];
    assert b[k] != a[k];
    forall j: nat | j < |a|
      ensures LinkOk(h, b, j) && Payload(b[j]) == Payload(a[j])
    {
      assert LinkOk(h, a, j);
      if j > 0 {
        assert a[..j][j - 1] == a[j - 1] && b[..j][j - 1] == b[j - 1];
      }
      assert LastHash(b[..j]) == LastHash(a[..j]);
    }
  }
}
