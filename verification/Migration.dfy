/**
Boot migration of the hand-off record: the decision, one boot, and any number
of boots after a Safe Mode session.
 */
module Migration {
  import opened Common
  import opened Handoff
  import Audit
  import Session = ConfigSession
  import Sha256

  datatype MigrationError = UnsupportedVersion(found: nat, expected: nat) | ChecksumMismatch | ApplyFailed

  datatype Decision = NoBuffer | NoChange | Apply(t: Thresholds) | Reject(error: MigrationError, why: string)

  type Digest = seq<Byte> -> string

  /** The monitor's thresholds on every boot, as single-precision patterns. */
  const DEFAULTS := Thresholds(0x3F19_999A, 0x3F00_0000, 0x3F00_0000, 0x3ECC_CCCD, 0x3ECC_CCCD, 0x3F33_3333, 0x3F66_6666, 16)

  const ACTOR := "safe-mode"

  function Decide(d: Digest, b: Buffer): Decision {
    if b.magic != MIGRATION_MAGIC then NoBuffer
    else if b.version != MIGRATION_VERSION then Reject(UnsupportedVersion(b.version, MIGRATION_VERSION), "version")
    else if Checksum(d, b) != b.checksum then Reject(ChecksumMismatch, "checksum")
    else if !b.dirty then NoChange
    else Apply(ToThresholds(b))
  }

  /** The record after it has been applied: clean, and sealed again. */
  function Cleared(d: Digest, b: Buffer): Buffer {
    Seal(d, b.(dirty := false))
  }

  /** What a boot leaves: the page, the monitor's thresholds, the verdict. */
  datatype Boot = Boot(page: Buffer, monitor: Thresholds, result: Result<Unit, MigrationError>)

  function BootOnce(d: Digest, page: Buffer, monitor: Thresholds): Boot {
    match Decide(d, page)
    case NoBuffer => Boot(page, monitor, Ok(Unit))
    case NoChange => Boot(page, monitor, Ok(Unit))
    case Apply(t) => Boot(Cleared(d, page), t, Ok(Unit))
    case Reject(e, _) => Boot(page, monitor, Err(e))
  }

  function BytesHex(bs: seq<Byte>): (s: string)
    ensures |s| == 2 * |bs|
  {
    if bs == [] then "" else Sha256.Hex(bs[0], 2) + BytesHex(bs[1..])
  }

  lemma {:induction false} BytesHexAt(bs: seq<Byte>, i: nat)
    requires i < |bs|
    ensures BytesHex(bs)[2 * i..2 * i + 2] == Sha256.Hex(bs[i], 2)
  {
    if i > 0 {
      BytesHexAt(bs[1..], i - 1);
      assert BytesHex(bs)[2 * i..2 * i + 2] == BytesHex(bs[1..])[2 * (i - 1)..2 * (i - 1) + 2];
    }
  }

  lemma HexPair(c: char, d: char)
    requires Audit.IsHexDigit(c) && Audit.IsHexDigit(d)
    ensures Sha256.Hex(Nibble(c) * 16 + Nibble(d), 2) == [c, d]
  {
    var n := Nibble(c) * 16 + Nibble(d);
    assert n / 16 == Nibble(c) && n % 16 == Nibble(d);
    assert Sha256.Hex(n / 16, 1) == Sha256.Hex(n / 16 / 16, 0) + [Sha256.HexDigit(n / 16 % 16)];
  }

  /** The trail shows the very digits that were packed into the checksum. */
  lemma HexRoundTrip(hex: string)
    requires |hex| == 64 && Audit.IsHex(hex)
    ensures BytesHex(HexToBytes(hex)) == hex
  {
    hide BytesHex, Sha256.Hex;
    var out := BytesHex(HexToBytes(hex));
    forall k | 0 <= k < 64
      ensures out[k] == hex[k]
    {
      var i := k / 2;
      BytesHexAt(HexToBytes(hex), i);
      HexPair(hex[2 * i], hex[2 * i + 1]);
      assert out[2 * i..2 * i + 2] == [hex[2 * i], hex[2 * i + 1]];
      assert out[k] == out[2 * i..2 * i + 2][k - 2 * i];
    }
  }

  /** The audit entry a boot leaves: its action and its target. */
  function Note(d: Digest, b: Buffer): Option<(string, string)> {
    match Decide(d, b)
    case NoBuffer => None
    case NoChange => Some(("migration_noop", BytesHex(b.checksum)))
    case Apply(_) => Some(("migration_apply", BytesHex(b.checksum)))
    case Reject(_, why) => Some(("migration_reject", why + " checksum=" + BytesHex(b.checksum)))
  }

  /** The trail grew by exactly the entry that `note` asks for. */
  ghost predicate Noted(before: seq<Audit.Entry>, after: seq<Audit.Entry>, timestamp: nat, note: Option<(string, string)>) {
    match note
    case None => after == before
    case Some((action, target)) =>
      && |after| == |before| + 1 && after[..|before|] == before
      && var e := after[|before|];
         e.timestamp == timestamp && e.actor == ACTOR && e.action == action && e.target == target
  }

  class Kernel {
    const digest: Digest
    const audit: Audit.AuditTrail
    var page: Buffer
    var monitor: Thresholds

    constructor (d: Digest, trail: Audit.AuditTrail, b: Buffer)
      ensures digest == d && audit == trail && page == b && monitor == DEFAULTS
    {
      digest, audit, page, monitor := d, trail, b, DEFAULTS;
    }

    /** Applying is always confirmed, so `ApplyFailed` cannot come out. */
    method Migrate() returns (r: Result<Unit, MigrationError>)
      requires audit.Valid()
      modifies this, audit
      ensures audit.Valid()
      ensures Boot(page, monitor, r) == BootOnce(digest, old(page), old(monitor))
      ensures r != Err(ApplyFailed)
      ensures Noted(old(audit.entries), audit.entries, old(page).timestamp, Note(digest, old(page)))
    {
      hide Audit.AuditTrail.Valid, Checksum, Seal, ToThresholds, BytesHex;
      var buf := page;
      match Decide(digest, buf) {
        case NoBuffer => r := Ok(Unit);
        case NoChange =>
          var _ := audit.Record(buf.timestamp, ACTOR, "migration_noop", BytesHex(buf.checksum));
          r := Ok(Unit);
        case Apply(desired) =>
          monitor := desired;
          if monitor != desired {
            assert false; // the read-back always confirms
          }
          var _ := audit.Record(buf.timestamp, ACTOR, "migration_apply", BytesHex(buf.checksum));
          page := Cleared(digest, buf);
          r := Ok(Unit);
        case Reject(error, why) =>
          var _ := audit.Record(buf.timestamp, ACTOR, "migration_reject", why + " checksum=" + BytesHex(buf.checksum));
          r := Err(error);
      }
    }
  }

  // ---------------------------------------------------------------------
  // What a decision means
  // ---------------------------------------------------------------------

  /** Something is applied exactly from a valid record that says it is dirty. */
  lemma AppliesIffValid(d: Digest, b: Buffer)
    ensures Decide(d, b).Apply? <==> IsValid(d, b) && b.dirty
    ensures Decide(d, b).NoChange? <==> IsValid(d, b) && !b.dirty
    ensures Decide(d, b).Reject? <==> b.magic == MIGRATION_MAGIC && !IsValid(d, b)
  {
    hide Checksum;
  }

  /** Which error a boot gives, and why; only a record that is applied changes
      the page or the monitor. */
  lemma RejectsIff(d: Digest, b: Buffer, monitor: Thresholds)
    ensures var boot := BootOnce(d, b, monitor);
            && (boot.result == Err(ChecksumMismatch) <==>
                  b.magic == MIGRATION_MAGIC && b.version == MIGRATION_VERSION && !IsValid(d, b))
            && (forall v, w :: boot.result == Err(UnsupportedVersion(v, w)) <==>
                  b.magic == MIGRATION_MAGIC && b.version != MIGRATION_VERSION && v == b.version && w == MIGRATION_VERSION)
            && (!(IsValid(d, b) && b.dirty) ==> boot.page == b && boot.monitor == monitor)
            && (IsValid(d, b) && b.dirty ==> boot == Boot(Seal(d, b.(dirty := false)), ToThresholds(b), Ok(Unit)))
  {
    hide Checksum, Seal;
  }

  /** The trail says what was decided: nothing for a page that holds no record,
      and otherwise one entry that names the outcome. */
  lemma NoteNamesOutcome(d: Digest, b: Buffer)
    ensures Note(d, b).None? <==> b.magic != MIGRATION_MAGIC
    ensures Note(d, b).Some? ==>
              var (action, target) := Note(d, b).value;
              && (action == "migration_apply" <==> IsValid(d, b) && b.dirty)
              && (action == "migration_noop" <==> IsValid(d, b) && !b.dirty)
              && (action == "migration_reject" <==> !IsValid(d, b))
              && |target| >= 2 * |b.checksum| && target[|target| - 2 * |b.checksum|..] == BytesHex(b.checksum)
  {
    hide Checksum, BytesHex;
    AppliesIffValid(d, b);
    var hex := BytesHex(b.checksum);
    if Decide(d, b).Reject? {
      var prefix := Decide(d, b).why + " checksum=";
      assert (prefix + hex)[|prefix|..] == hex;
    }
    assert "migration_apply"[10] == 'a' && "migration_noop"[10] == 'n' && "migration_reject"[10] == 'r';
  }

  /** A cleared record is authentic, clean, and otherwise what it was. */
  lemma ClearedIsClean(d: Digest, b: Buffer)
    requires IsValid(d, b)
    ensures IsValid(d, Cleared(d, b)) && Decide(d, Cleared(d, b)) == NoChange
    ensures ToThresholds(Cleared(d, b)) == ToThresholds(b) && SameFields(Cleared(d, b), b.(dirty := false))
  {
    hide Checksum;
    SealValidates(d, b.(dirty := false));
    AppliesIffValid(d, Cleared(d, b));
  }

  // ---------------------------------------------------------------------
  // Any number of boots
  // ---------------------------------------------------------------------

  /** The page after `n` boots. The monitor starts from its defaults each time. */
  function PageAfter(d: Digest, b: Buffer, n: nat): Buffer {
    if n == 0 then b else BootOnce(d, PageAfter(d, b, n - 1), DEFAULTS).page
  }

  function BootAt(d: Digest, b: Buffer, n: nat): Boot {
    BootOnce(d, PageAfter(d, b, n), DEFAULTS)
  }

  /** A record that is applied is cleared once and then left alone; any other is
      never touched. */
  lemma {:induction false} PagesOverBoots(d: Digest, b: Buffer, n: nat)
    ensures PageAfter(d, b, n) == if n > 0 && Decide(d, b).Apply? then Cleared(d, b) else b
  {
    hide Cleared, Checksum, ToThresholds;
    if n > 0 {
      PagesOverBoots(d, b, n - 1);
      AppliesIffValid(d, b);
      if Decide(d, b).Apply? {
        ClearedIsClean(d, b);
      }
    }
  }

  /** Boot after boot: the same decision for good, except that a record applied
      on the first boot is found clean, with success, on every later one. */
  lemma BootsAfter(d: Digest, b: Buffer, n: nat)
    ensures n == 0 || !Decide(d, b).Apply? ==> BootAt(d, b, n) == BootOnce(d, b, DEFAULTS)
    ensures n > 0 && Decide(d, b).Apply? ==>
              && Decide(d, PageAfter(d, b, n)) == NoChange && IsValid(d, PageAfter(d, b, n))
              && BootAt(d, b, n) == Boot(Cleared(d, b), DEFAULTS, Ok(Unit))
  {
    hide Cleared, Checksum, ToThresholds;
    PagesOverBoots(d, b, n);
    AppliesIffValid(d, b);
    if Decide(d, b).Apply? {
      ClearedIsClean(d, b);
    }
  }

  function Applications(d: Digest, b: Buffer, n: nat): nat {
    if n == 0 then 0
    else Applications(d, b, n - 1) + if Decide(d, PageAfter(d, b, n - 1)).Apply? then 1 else 0
  }

  /** No record is applied twice. */
  lemma {:induction false} AppliedAtMostOnce(d: Digest, b: Buffer, n: nat)
    ensures Applications(d, b, n) == if n > 0 && Decide(d, b).Apply? then 1 else 0
  {
    hide Decide, PageAfter, BootOnce;
    if n > 0 {
      AppliedAtMostOnce(d, b, n - 1);
      DecisionOverBoots(d, b, n - 1);
    }
  }

  lemma DecisionOverBoots(d: Digest, b: Buffer, n: nat)
    ensures Decide(d, PageAfter(d, b, n)) == if n > 0 && Decide(d, b).Apply? then NoChange else Decide(d, b)
  {
    hide Decide, PageAfter, BootOnce, Cleared;
    PagesOverBoots(d, b, n);
    AppliesIffValid(d, b);
    if Decide(d, b).Apply? {
      ClearedIsClean(d, b);
    }
  }

  /** From the operator's lines to the live monitor: the first boot after a
      confirmed save runs with exactly the configuration that was on screen;
      later boots find the record clean and run with the defaults. */
  lemma SavedConfigurationBoots(env: Session.Env, t: Thresholds, lines: seq<Session.Line>, k: nat, n: nat)
    requires k < |lines| && Session.ResponseAt(env, t, lines, k).buffer.Some?
    ensures var b := Session.ResponseAt(env, t, lines, k).buffer.value;
            var working := Session.After(env, t, lines[..k]).working;
            && Decide(env.digest, b) == Apply(working) && Session.ValidConfig(working)
            && BootAt(env.digest, b, n) == Boot(Cleared(env.digest, b), if n == 0 then working else DEFAULTS, Ok(Unit))
  {
    hide Session.ResponseAt, Session.After, Session.ValidConfig, Cleared, Checksum;
    var b := Session.ResponseAt(env, t, lines, k).buffer.value;
    Session.EmittedRecord(env, t, lines, k);
    AppliesIffValid(env.digest, b);
    BootsAfter(env.digest, b, n);
  }
}
