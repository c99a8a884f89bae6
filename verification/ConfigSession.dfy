/**
The Safe Mode configuration session: operator lines in, at most one sealed
hand-off record out per confirmed save.
 */
module ConfigSession {
  import opened Common
  import opened Handoff

  /** Number parsing and the digest come from outside. */
  datatype Env = Env(parseU32: string -> Option<Bits>, parseF32: string -> Option<Bits>, digest: seq<Byte> -> string)

  datatype Pending = NothingPending | SaveConfirm | ExitConfirm

  datatype Action = Continue | Saved | Exit

  datatype Response = Response(action: Action, buffer: Option<Buffer>)

  const CONTINUE := Response(Continue, None)

  datatype Session = Session(original: Thresholds, working: Thresholds, pending: Pending, committed: bool)

  datatype Line = Line(text: string, timestamp: U64)

  const MAX_WINDOW: nat := 4096

  // ---------------------------------------------------------------------
  // Words
  // ---------------------------------------------------------------------

  /** The characters Unicode calls white space. */
  predicate IsSpace(c: char) {
    var n := c as int;
    || 0x9 <= n <= 0xD || n == 0x20 || n == 0x85 || n == 0xA0 || n == 0x1680
    || 0x2000 <= n <= 0x200A || n == 0x2028 || n == 0x2029 || n == 0x202F || n == 0x205F || n == 0x3000
  }

  function SkipSpace(s: string): (t: string)
    ensures |t| <= |s| && (t == "" || !IsSpace(t[0]))
  {
    if s != "" && IsSpace(s[0]) then SkipSpace(s[1..]) else s
  }

  function DropSpace(s: string): (t: string)
    ensures t <= s && (t == "" || !IsSpace(t[|t| - 1]))
  {
    if s != "" && IsSpace(s[|s| - 1]) then DropSpace(s[..|s| - 1]) else s
  }

  function Trim(s: string): string {
    DropSpace(SkipSpace(s))
  }

  function WordLength(s: string): (n: nat)
    ensures n <= |s| && (s != "" && !IsSpace(s[0]) ==> n > 0)
    ensures forall k | 0 <= k < n :: !IsSpace(s[k])
  {
    if s == "" || IsSpace(s[0]) then 0 else 1 + WordLength(s[1..])
  }

  function Words(s: string): seq<string>
    decreases |s|
  {
    var t := SkipSpace(s);
    if t == "" then [] else [t[..WordLength(t)]] + Words(t[WordLength(t)..])
  }

  function Lower(s: string): string {
    seq(|s|, i requires 0 <= i < |s| => if 'A' <= s[i] <= 'Z' then (s[i] as int + 32) as char else s[i])
  }

  ghost predicate AllSpace(s: string) {
    forall k | 0 <= k < |s| :: IsSpace(s[k])
  }

  ghost predicate IsWord(s: string) {
    s != "" && forall k | 0 <= k < |s| :: !IsSpace(s[k])
  }

  /** White space in front is passed over. */
  lemma {:induction false} SkipsSpace(gap: string, s: string)
    requires AllSpace(gap)
    ensures SkipSpace(gap + s) == SkipSpace(s)
    decreases |gap|
  {
    if gap == "" {
      assert gap + s == s;
    } else {
      assert (gap + s)[1..] == gap[1..] + s;
      SkipsSpace(gap[1..], s);
    }
  }

  lemma {:induction false} WordEnds(w: string, s: string)
    requires (forall k | 0 <= k < |w| :: !IsSpace(w[k])) && (s == "" || IsSpace(s[0]))
    ensures WordLength(w + s) == |w|
    decreases |w|
  {
    if w == "" {
      assert w + s == s;
    } else {
      assert (w + s)[1..] == w[1..] + s;
      WordEnds(w[1..], s);
    }
  }

  /** White space, a word, and whatever comes after it. */
  lemma FirstWord(gap: string, w: string, s: string)
    requires AllSpace(gap) && IsWord(w) && (s == "" || IsSpace(s[0]))
    ensures Words(gap + w + s) == [w] + Words(s)
  {
    hide SkipSpace, WordLength;
    var t := w + s;
    assert gap + w + s == gap + t && t[0] == w[0];
    SkipsSpace(gap, t);
    StartsWithWord(t);
    WordEnds(w, s);
    assert t[..|w|] == w && t[|w|..] == s;
  }

  lemma StartsWithWord(t: string)
    requires t != "" && !IsSpace(t[0])
    ensures SkipSpace(t) == t
  {
  }

  lemma NoWords(gap: string)
    requires AllSpace(gap)
    ensures Words(gap) == []
  {
    SkipsSpace(gap, "");
    assert gap + "" == gap;
  }

  /** Three words, however they are spaced. */
  lemma ThreeWords(g0: string, a: string, g1: string, b: string, g2: string, c: string, g3: string)
    requires AllSpace(g0) && AllSpace(g1) && AllSpace(g2) && AllSpace(g3) && g1 != "" && g2 != ""
    requires IsWord(a) && IsWord(b) && IsWord(c)
    ensures Words(g0 + a + (g1 + b + (g2 + c + g3))) == [a, b, c]
  {
    hide Words, IsWord;
    assert IsSpace(g1[0]) && IsSpace(g2[0]) && (g3 == "" || IsSpace(g3[0]));
    assert (g1 + b + (g2 + c + g3))[0] == g1[0] && (g2 + c + g3)[0] == g2[0];
    FirstWord(g0, a, g1 + b + (g2 + c + g3));
    FirstWord(g1, b, g2 + c + g3);
    FirstWord(g2, c, g3);
    NoWords(g3);
  }

  lemma {:induction false} Skipped(s: string) returns (gap: string)
    ensures AllSpace(gap) && s == gap + SkipSpace(s)
    decreases |s|
  {
    if s != "" && IsSpace(s[0]) {
      var rest := Skipped(s[1..]);
      gap := [s[0]] + rest;
      assert s == [s[0]] + s[1..];
    } else {
      gap := "";
    }
  }

  lemma {:induction false} DroppedIsSpace(s: string)
    ensures AllSpace(s[|DropSpace(s)|..]) && s == DropSpace(s) + s[|DropSpace(s)|..]
    decreases |s|
  {
    if s != "" && IsSpace(s[|s| - 1]) {
      var front := s[..|s| - 1];
      DroppedIsSpace(front);
      assert s[|DropSpace(s)|..] == front[|DropSpace(s)|..] + [s[|s| - 1]];
    }
  }

  /** Trimming takes away white space at both ends, all of it and no more. */
  lemma TrimStrips(s: string) returns (before: string, after: string)
    ensures AllSpace(before) && AllSpace(after) && s == before + Trim(s) + after
    ensures Trim(s) != "" ==> !IsSpace(Trim(s)[0]) && !IsSpace(Trim(s)[|Trim(s)| - 1])
  {
    before := Skipped(s);
    DroppedIsSpace(SkipSpace(s));
    after := SkipSpace(s)[|Trim(s)|..];
    assert s == before + (Trim(s) + after) == before + Trim(s) + after;
  }

  /** ASCII letters in lower case, every other character as it is. */
  lemma LowerLetters(s: string)
    ensures |Lower(s)| == |s|
    ensures forall k | 0 <= k < |s| :: !('A' <= Lower(s)[k] <= 'Z')
    ensures forall k | 0 <= k < |s| ::
              if 'A' <= s[k] <= 'Z' then Lower(s)[k] as int - 'a' as int == s[k] as int - 'A' as int else Lower(s)[k] == s[k]
  {
  }

  // ---------------------------------------------------------------------
  // Commands
  // ---------------------------------------------------------------------

  /** One edit; `None` when it is rejected. */
  function ApplySet(env: Env, t: Thresholds, key: string, raw: string): Option<Thresholds> {
    if key == "window" then
      match env.parseU32(raw)
      case Some(w) => if 1 <= w <= MAX_WINDOW then Some(t.(window := w)) else None
      case None => None
    else if key in ["repetition", "self_referential", "token_velocity", "tool_retry", "soft", "medium", "hard"] then
      match env.parseF32(raw)
      case Some(v) =>
        if !InUnit(v) then None
        else if key == "repetition" then Some(t.(repetition := v))
        else if key == "self_referential" then Some(t.(selfReferential := v))
        else if key == "token_velocity" then Some(t.(tokenVelocity := v))
        else if key == "tool_retry" then Some(t.(toolRetry := v))
        else if key == "soft" then Some(t.(soft := v))
        else if key == "medium" then Some(t.(medium := v))
        else Some(t.(hard := v))
      case None => None
    else None
  }

  predicate AllInUnit(t: Thresholds) {
    && InUnit(t.repetition) && InUnit(t.selfReferential) && InUnit(t.tokenVelocity) && InUnit(t.toolRetry)
    && InUnit(t.soft) && InUnit(t.medium) && InUnit(t.hard)
  }

  predicate ValidConfig(t: Thresholds) {
    && AtMost(t.soft, t.medium) && AtMost(t.medium, t.hard)
    && 1 <= t.window <= MAX_WINDOW && AllInUnit(t)
  }

  predicate Dirty(s: Session) {
    s.working != s.original
  }

  /** Exactly a key and a value. */
  function CmdSet(env: Env, s: Session, ws: seq<string>): Session {
    if |ws| != 3 then s
    else match ApplySet(env, s.working, Lower(ws[1]), ws[2])
      case Some(t) => s.(working := t)
      case None => s
  }

  function CmdSave(s: Session): Session {
    if Dirty(s) && ValidConfig(s.working) then s.(pending := SaveConfirm) else s
  }

  function CmdExit(s: Session): (Session, Response) {
    if Dirty(s) then (s.(pending := ExitConfirm), CONTINUE) else (s, Response(Exit, None))
  }

  function ResolveSave(env: Env, s: Session, text: string, timestamp: U64): (Session, Response) {
    var idle := s.(pending := NothingPending);
    if text != "yes" || !ValidConfig(s.working) then (idle, CONTINUE)
    else (idle.(original := s.working, committed := true),
          Response(Saved, Some(Seal(env.digest, FromThresholds(s.working, Dirty(s), timestamp)))))
  }

  function ResolveExit(s: Session, text: string): (Session, Response) {
    (s.(pending := NothingPending), if text == "yes" then Response(Exit, None) else CONTINUE)
  }

  /** One line of operator input. */
  function Handle(env: Env, s: Session, line: Line): (Session, Response) {
    var text := Trim(line.text);
    match s.pending
    case SaveConfirm => ResolveSave(env, s, text, line.timestamp)
    case ExitConfirm => ResolveExit(s, text)
    case NothingPending =>
      var ws := Words(text);
      if ws == [] then (s, CONTINUE)
      else if ws[0] == "set" then (CmdSet(env, s, ws), CONTINUE)
      else if ws[0] == "save" then (CmdSave(s), CONTINUE)
      else if ws[0] == "exit" || ws[0] == "quit" then CmdExit(s)
      else (s, CONTINUE)
  }

  // ---------------------------------------------------------------------
  // The session object
  // ---------------------------------------------------------------------

  class OperatorSession {
    var original: Thresholds
    var working: Thresholds
    var pending: Pending
    var committed: bool

    ghost function View(): Session
      reads this
    {
      Session(original, working, pending, committed)
    }

    constructor (current: Thresholds)
      ensures View() == Started(current)
    {
      original, working, pending, committed := current, current, NothingPending, false;
    }

    method HandleLine(env: Env, line: Line) returns (r: Response)
      modifies this
      ensures (View(), r) == Handle(env, old(View()), line)
    {
      var text := Trim(line.text);
      match pending {
        case SaveConfirm =>
          r := ConfirmSave(env, text, line.timestamp);
        case ExitConfirm =>
          pending := NothingPending;
          r := if text == "yes" then Response(Exit, None) else CONTINUE;
        case NothingPending =>
          r := Dispatch(env, Words(text));
      }
    }

    method ConfirmSave(env: Env, text: string, timestamp: U64) returns (r: Response)
      modifies this
      ensures (View(), r) == ResolveSave(env, old(View()), text, timestamp)
    {
      pending := NothingPending;
      if text != "yes" || !ValidConfig(working) {
        return CONTINUE;
      }
      var dirty := working != original;
      var buffer := Seal(env.digest, FromThresholds(working, dirty, timestamp));
      original := working;
      committed := true;
      r := Response(Saved, Some(buffer));
    }

    method Dispatch(env: Env, ws: seq<string>) returns (r: Response)
      requires pending == NothingPending
      modifies this
      ensures ws == [] ==> View() == old(View()) && r == CONTINUE
      ensures ws != [] ==>
                (View(), r) ==
                (if ws[0] == "set" then (CmdSet(env, old(View()), ws), CONTINUE)
                 else if ws[0] == "save" then (CmdSave(old(View())), CONTINUE)
                 else if ws[0] == "exit" || ws[0] == "quit" then CmdExit(old(View()))
                 else (old(View()), CONTINUE))
    {
      r := CONTINUE;
      if ws == [] {
        return;
      }
      if ws[0] == "set" {
        if |ws| == 3 {
          var updated := ApplySet(env, working, Lower(ws[1]), ws[2]);
          if updated.Some? {
            working := updated.value;
          }
        }
      } else if ws[0] == "save" {
        if working != original && ValidConfig(working) {
          pending := SaveConfirm;
        }
      } else if ws[0] == "exit" || ws[0] == "quit" {
        if working != original {
          pending := ExitConfirm;
        } else {
          r := Response(Exit, None);
        }
      }
    }
  }

  // ---------------------------------------------------------------------
  // Every sequence of lines
  // ---------------------------------------------------------------------

  function Started(t: Thresholds): Session {
    Session(t, t, NothingPending, false)
  }

  /** The session after some lines. */
  function After(env: Env, t: Thresholds, lines: seq<Line>): Session
    decreases |lines|
  {
    if lines == [] then Started(t)
    else Handle(env, After(env, t, lines[..|lines| - 1]), lines[|lines| - 1]).0
  }

  function ResponseAt(env: Env, t: Thresholds, lines: seq<Line>, k: nat): Response
    requires k < |lines|
  {
    Handle(env, After(env, t, lines[..k]), lines[k]).1
  }

  /** A `save` that is taken up: nothing pending, something changed, and the
      configuration is in order. */
  predicate AcceptedSave(s: Session, line: Line) {
    var ws := Words(Trim(line.text));
    s.pending == NothingPending && ws != [] && ws[0] == "save" && Dirty(s) && ValidConfig(s.working)
  }

  lemma AfterNext(env: Env, t: Thresholds, lines: seq<Line>, k: nat)
    requires k < |lines|
    ensures After(env, t, lines[..k + 1]) == Handle(env, After(env, t, lines[..k]), lines[k]).0
  {
    assert lines[..k + 1][..k] == lines[..k];
  }

  lemma ArmedStep(env: Env, s: Session, line: Line)
    ensures Handle(env, s, line).0.pending == SaveConfirm <==> AcceptedSave(s, line)
    ensures AcceptedSave(s, line) ==> Handle(env, s, line).0 == s.(pending := SaveConfirm)
  {
    hide Words, Trim, ApplySet, ValidConfig, Seal, FromThresholds, Lower;
  }

  /** A confirmation is pending exactly right after an accepted save. */
  lemma ArmedIff(env: Env, t: Thresholds, lines: seq<Line>, k: nat)
    requires k <= |lines|
    ensures After(env, t, lines[..k]).pending == SaveConfirm <==>
            k >= 1 && AcceptedSave(After(env, t, lines[..k - 1]), lines[k - 1])
    ensures After(env, t, lines[..k]).pending == SaveConfirm ==>
              Dirty(After(env, t, lines[..k])) && ValidConfig(After(env, t, lines[..k]).working)
  {
    hide Handle, After, ValidConfig;
    if k == 0 {
      AfterNone(env, t, lines[..0]);
    } else {
      AfterNext(env, t, lines, k - 1);
      ArmedStep(env, After(env, t, lines[..k - 1]), lines[k - 1]);
    }
  }

  lemma AfterNone(env: Env, t: Thresholds, lines: seq<Line>)
    requires lines == []
    ensures After(env, t, lines) == Started(t)
  {
  }

  lemma EmitStep(env: Env, s: Session, line: Line)
    ensures var r := Handle(env, s, line).1;
            && (r.buffer.Some? <==> s.pending == SaveConfirm && Trim(line.text) == "yes" && ValidConfig(s.working))
            && (r.action == Saved <==> r.buffer.Some?)
            && (r.buffer.Some? ==> r.buffer.value == Seal(env.digest, FromThresholds(s.working, Dirty(s), line.timestamp)))
  {
    hide Words, Trim, ApplySet, ValidConfig, Seal, FromThresholds, Lower;
  }

  /** A record leaves the session exactly on a "yes" directly after an accepted
      save, for every sequence of lines from every starting configuration. */
  lemma EmitsExactly(env: Env, t: Thresholds, lines: seq<Line>, k: nat)
    requires k < |lines|
    ensures ResponseAt(env, t, lines, k).buffer.Some? <==>
            k >= 1 && AcceptedSave(After(env, t, lines[..k - 1]), lines[k - 1]) && Trim(lines[k].text) == "yes"
    ensures ResponseAt(env, t, lines, k).buffer.Some? <==> ResponseAt(env, t, lines, k).action == Saved
  {
    hide Handle, After, ValidConfig, Trim, Words, AcceptedSave;
    ArmedIff(env, t, lines, k);
    EmitStep(env, After(env, t, lines[..k]), lines[k]);
  }

  /** That record is valid, dirty, in range and ordered, and carries the working
      thresholds bit for bit. */
  lemma EmittedRecord(env: Env, t: Thresholds, lines: seq<Line>, k: nat)
    requires k < |lines| && ResponseAt(env, t, lines, k).buffer.Some?
    ensures var b := ResponseAt(env, t, lines, k).buffer.value;
            && IsValid(env.digest, b) && b.dirty && b.timestamp == lines[k].timestamp
            && ToThresholds(b) == After(env, t, lines[..k]).working && ValidConfig(ToThresholds(b))
  {
    hide Handle, After, Trim, Words, AcceptedSave, Checksum, AllInUnit, AtMost, IsValid;
    var s := After(env, t, lines[..k]);
    ArmedIff(env, t, lines, k);
    EmitStep(env, s, lines[k]);
    SealValidates(env.digest, FromThresholds(s.working, Dirty(s), lines[k].timestamp));
    CarriedFaithfully(env.digest, s.working, Dirty(s), lines[k].timestamp);
  }

  // ---------------------------------------------------------------------
  // What a `set` does
  // ---------------------------------------------------------------------

  /** The setting an operator names by `key`. */
  function Setting(t: Thresholds, key: string): Option<nat> {
    match key
    case "repetition" => Some(t.repetition)
    case "self_referential" => Some(t.selfReferential)
    case "token_velocity" => Some(t.tokenVelocity)
    case "tool_retry" => Some(t.toolRetry)
    case "soft" => Some(t.soft)
    case "medium" => Some(t.medium)
    case "hard" => Some(t.hard)
    case "window" => Some(t.window)
    case _ => None
  }

  /** The value an operator writes for it, if it may have that value. */
  function Admitted(env: Env, key: string, raw: string): Option<nat> {
    if key == "window" then
      match env.parseU32(raw)
      case Some(w) => if 1 <= w <= MAX_WINDOW then Some(w) else None
      case None => None
    else
      match env.parseF32(raw)
      case Some(v) => if InUnit(v) then Some(v) else None
      case None => None
  }

  /** An edit is accepted exactly when there is such a setting and it may have
      the value; then that setting has the value, and no other has changed. */
  lemma SetChangesOne(env: Env, t: Thresholds, key: string, raw: string)
    ensures ApplySet(env, t, key, raw).Some? <==> Setting(t, key).Some? && Admitted(env, key, raw).Some?
    ensures ApplySet(env, t, key, raw).Some? ==>
              var t' := ApplySet(env, t, key, raw).value;
              && Setting(t', key) == Admitted(env, key, raw)
              && forall other | other != key :: Setting(t', other) == Setting(t, other)
  {
    hide InUnit;
  }

  /** An accepted edit keeps what was in order field by field. */
  lemma SetKeepsRanges(env: Env, t: Thresholds, key: string, raw: string)
    requires ApplySet(env, t, key, raw).Some?
    ensures AllInUnit(t) ==> AllInUnit(ApplySet(env, t, key, raw).value)
    ensures 1 <= t.window <= MAX_WINDOW ==> 1 <= ApplySet(env, t, key, raw).value.window <= MAX_WINDOW
  {
    hide InUnit;
  }

  /** The line is an accepted edit. */
  predicate AcceptedSet(env: Env, s: Session, line: Line) {
    var ws := Words(Trim(line.text));
    && s.pending == NothingPending && |ws| == 3 && ws[0] == "set"
    && ApplySet(env, s.working, Lower(ws[1]), ws[2]).Some?
  }

  /** The configuration on screen changes by accepted edits only, and what it is
      compared with by confirmed saves only. */
  lemma OnlySetEdits(env: Env, s: Session, line: Line)
    ensures var s' := Handle(env, s, line).0;
            var ws := Words(Trim(line.text));
            && s'.working == (if AcceptedSet(env, s, line) then ApplySet(env, s.working, Lower(ws[1]), ws[2]).value
                              else s.working)
            && s'.original == if Handle(env, s, line).1.action == Saved then s.working else s.original
  {
    hide Words, Trim, ApplySet, ValidConfig, Seal, FromThresholds, Lower;
  }

  /** The line asks to leave. */
  predicate AsksToLeave(s: Session, line: Line) {
    var ws := Words(Trim(line.text));
    s.pending == NothingPending && ws != [] && (ws[0] == "exit" || ws[0] == "quit")
  }

  lemma LeaveStep(env: Env, s: Session, line: Line)
    ensures Handle(env, s, line).0.pending == ExitConfirm <==> AsksToLeave(s, line) && Dirty(s)
    ensures Handle(env, s, line).1.action == Exit <==>
            (AsksToLeave(s, line) && !Dirty(s)) || (s.pending == ExitConfirm && Trim(line.text) == "yes")
  {
    hide Words, Trim, ApplySet, ValidConfig, Seal, FromThresholds, Lower;
  }

  /** A session ends exactly when leaving is asked for with nothing unsaved, or
      with something unsaved and the next line says "yes": unsaved changes are
      never dropped unasked. */
  lemma LeavesExactly(env: Env, t: Thresholds, lines: seq<Line>, k: nat)
    requires k < |lines|
    ensures ResponseAt(env, t, lines, k).action == Exit <==>
            || (AsksToLeave(After(env, t, lines[..k]), lines[k]) && !Dirty(After(env, t, lines[..k])))
            || (&& k >= 1 && AsksToLeave(After(env, t, lines[..k - 1]), lines[k - 1])
                && Dirty(After(env, t, lines[..k - 1])) && Trim(lines[k].text) == "yes")
  {
    hide Handle, After, Trim, Words, AsksToLeave;
    LeaveStep(env, After(env, t, lines[..k]), lines[k]);
    if k == 0 {
      AfterNone(env, t, lines[..0]);
    } else {
      AfterNext(env, t, lines, k - 1);
      LeaveStep(env, After(env, t, lines[..k - 1]), lines[k - 1]);
    }
  }

  ghost predicate InRange(s: Session) {
    && AllInUnit(s.working) && 1 <= s.working.window <= MAX_WINDOW
    && AllInUnit(s.original) && 1 <= s.original.window <= MAX_WINDOW
  }

  lemma HandleKeepsRange(env: Env, s: Session, line: Line)
    requires InRange(s)
    ensures InRange(Handle(env, s, line).0)
  {
    hide ApplySet, AllInUnit, Trim, Words, Seal, FromThresholds, ValidConfig, Lower;
    var ws := Words(Trim(line.text));
    if |ws| == 3 && ApplySet(env, s.working, Lower(ws[1]), ws[2]).Some? {
      SetKeepsRanges(env, s.working, Lower(ws[1]), ws[2]);
    }
  }

  /** From an in-range start every working configuration is in range, so only
      the order of the tiers can keep a save from being accepted. */
  lemma {:induction false} WorkingInRange(env: Env, t: Thresholds, lines: seq<Line>)
    requires InRange(Started(t))
    ensures InRange(After(env, t, lines))
    decreases |lines|
  {
    hide InRange, Handle;
    if lines != [] {
      WorkingInRange(env, t, lines[..|lines| - 1]);
      HandleKeepsRange(env, After(env, t, lines[..|lines| - 1]), lines[|lines| - 1]);
    }
  }
}
