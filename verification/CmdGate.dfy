/**
 The gate object itself: its fields, and the methods the two copy goroutines call.  Each method is proved to be
 the run of `GateRuns` in which its side takes all its steps and the other side none, so every theorem about
 runs holds of the object.

 `sent` is what the device has been sent; `trace` is history.
 */
module CmdGate {
  import opened Text
  import opened PasswordMasker
  import opened GateModel
  import opened GateRuns

  // ---------------------------------------------------------------- one side alone

  /** How many steps the keystroke side can still take. */
  function StepsLeft(pc: UserPc): nat {
    match pc
    case Idle => 0
    case Next(rest) => 6 * |rest| + 1
    case Typing(_, rest) => 6 * |rest| + 6
    case Forcing(rest) => 6 * |rest| + 3
    case SendingForced(rest) => 6 * |rest| + 2
    case Denying(rest) => 6 * |rest| + 4
    case Enabling(_, _, rest) => 6 * |rest| + 4
    case Sending(_, rest) => 6 * |rest| + 2
  }

  lemma LineEndAdvances(cfg: Config, s: Session, c: char, rest: string)
    ensures StepsLeft(StepLineEnd(cfg, s, c, rest).user) < 6 * |rest| + 6
  {
  }

  lemma StepAdvances(cfg: Config, s: Session)
    requires !s.user.Idle?
    ensures StepsLeft(StepUser(cfg, s).user) < StepsLeft(s.user)
  {
    if s.user.Typing? {
      LineEndAdvances(cfg, s, s.user.c, s.user.rest);
    }
  }

  /** The keystroke side steps until its chunk is used up. */
  function Settle(cfg: Config, s: Session): Session
    decreases StepsLeft(s.user)
  {
    if s.user.Idle? then s
    else
      StepAdvances(cfg, s);
      Settle(cfg, StepUser(cfg, s))
  }

  lemma SettleStep(cfg: Config, s: Session)
    requires !s.user.Idle?
    ensures Settle(cfg, s) == Settle(cfg, StepUser(cfg, s))
  {
  }

  /** The parts of the machine's line-end step. */
  lemma LineEndStep(cfg: Config, s: Session, c: char, rest: string)
    requires s.user == Typing(c, rest) && (c == '\r' || (c == '\n' && !s.gate.skipNextLF))
    ensures var g := if c == '\r' then s.gate.(skipNextLF := true) else s.gate;
            var s' := StepLineEnd(cfg, s, c, rest);
            var line := JudgeLine(cfg, g).1;
            && StepUser(cfg, s) == s' && s'.gate == JudgeLine(cfg, g).0 && s'.up == s.up && s'.out == s.out
            && s'.user == AfterVerdict(c, rest, line, VerdictOn(cfg, g.injectEnableOnEnter, line))
  {
  }

  /** The output side steps until it is quiet. */
  function SettleOut(cfg: Config, s: Session, recent: bool): Session {
    StepOut(cfg, StepOut(cfg, StepOut(cfg, s, recent), recent), recent)
  }

  lemma QuietStays(cfg: Config, s: Session, recent: bool)
    requires s.out.Quiet?
    ensures SettleOut(cfg, s, recent) == s
  {
  }

  /** One side's steps alone are a run. */
  lemma {:induction false} SettleIsRun(cfg: Config, s: Session) returns (steps: seq<Action>)
    ensures Settle(cfg, s) == Run(cfg, s, steps) && Settle(cfg, s).user.Idle?
    decreases StepsLeft(s.user)
  {
    if s.user.Idle? {
      steps := [];
    } else {
      StepAdvances(cfg, s);
      var more := SettleIsRun(cfg, StepUser(cfg, s));
      steps := [UserStep] + more;
      assert steps[0] == UserStep && steps[1..] == more;
      assert Apply(cfg, s, UserStep) == StepUser(cfg, s);
    }
  }

  lemma SettleOutIsRun(cfg: Config, s: Session, recent: bool)
    ensures SettleOut(cfg, s, recent) == Run(cfg, s, [OutStep(recent), OutStep(recent), OutStep(recent)])
    ensures SettleOut(cfg, s, recent).out.Quiet? && SettleOut(cfg, s, recent).user == s.user
  {
    var a := OutStep(recent);
    RunOne(cfg, s, a, [a, a]);
    RunOne(cfg, Apply(cfg, s, a), a, [a]);
    RunOne(cfg, Apply(cfg, Apply(cfg, s, a), a), a, []);
    assert [a] + [a, a] == [a, a, a] && [a] + [a] == [a, a] && [a] + [] == [a];
  }

  lemma RunOne(cfg: Config, s: Session, a: Action, rest: seq<Action>)
    ensures Run(cfg, s, [a] + rest) == Run(cfg, Apply(cfg, s, a), rest)
  {
    assert ([a] + rest)[0] == a && ([a] + rest)[1..] == rest;
  }

  /** The bytes on the wire. */
  function Wire(cfg: Config, up: seq<Upstream>): string {
    if up == [] then "" else Wire(cfg, up[..|up| - 1]) + WireOf(cfg, up[|up| - 1])
  }

  function WireOf(cfg: Config, u: Upstream): string {
    match u
    case Key(c) => [c]
    case LineEnd(c, _) => [c]
    case Secret(_) => cfg.Credential() + "\r"
    case Interrupt => [CTRL_C]
  }

  /** A key or a line end puts its byte on the wire, a secret the enable secret, or else the portal password, and a
      carriage return, an interrupt the byte 3. */
  lemma WireOne(cfg: Config, up: seq<Upstream>, u: Upstream)
    ensures Wire(cfg, up + [u]) ==
            Wire(cfg, up) +
            match u
            case Key(c) => [c]
            case LineEnd(c, _) => [c]
            case Secret(_) => (if cfg.enableSecret != "" then cfg.enableSecret else cfg.portalPassword) + "\r"
            case Interrupt => ['\U{03}']
  {
    assert (up + [u])[..|up|] == up;
  }

  /** A chunk of keystrokes, and a chunk of output, handled while the other side does nothing. */
  function Keystrokes(cfg: Config, s: Session, p: string): Session {
    Settle(cfg, TakeChunk(cfg, s, p))
  }

  function Output(cfg: Config, s: Session, p: string, recent: bool): Session {
    SettleOut(cfg, NoteChunk(cfg, s, p), recent)
  }

  ghost predicate Accounted(cfg: Config, s: Session) {
    CreditInv(s) && FlowInv(cfg, s)
  }

  lemma KeystrokesKeep(cfg: Config, s: Session, p: string)
    requires Accounted(cfg, s) && s.user.Idle?
    ensures Accounted(cfg, Keystrokes(cfg, s, p)) && Keystrokes(cfg, s, p).user.Idle?
  {
    var s1 := Apply(cfg, s, UserChunk(p));
    CreditStep(cfg, s, UserChunk(p));
    FlowStep(cfg, s, UserChunk(p));
    var steps := SettleIsRun(cfg, s1);
    RunKeeps(cfg, s1, steps);
  }

  lemma OutputKeeps(cfg: Config, s: Session, p: string, recent: bool)
    requires Accounted(cfg, s) && s.out.Quiet?
    ensures Accounted(cfg, Output(cfg, s, p, recent))
    ensures Output(cfg, s, p, recent).out.Quiet? && Output(cfg, s, p, recent).user == s.user
  {
    var s1 := Apply(cfg, s, DeviceChunk(p));
    CreditStep(cfg, s, DeviceChunk(p));
    FlowStep(cfg, s, DeviceChunk(p));
    SettleOutIsRun(cfg, s1, recent);
    RunKeeps(cfg, s1, [OutStep(recent), OutStep(recent), OutStep(recent)]);
  }

  // ---------------------------------------------------------------- the object

  class CommandGate {
    const cfg: Config
    var devLine: string
    var userTyped: string
    var ignoreLine: bool
    var skipNextLF: bool
    var expectEnablePass: bool
    var injectEnableOnEnter: bool
    var execPrivileged: bool
    var enableMaskLen: nat
    var enableInjected: bool
    var sent: string
    ghost var trace: Session

    function State(): Gate
      reads this
    {
      Gate(devLine, userTyped, ignoreLine, skipNextLF, expectEnablePass, injectEnableOnEnter, execPrivileged, enableMaskLen,
           enableInjected)
    }

    /** The fields and the wire are those of the history. */
    ghost predicate Linked()
      reads this
    {
      State() == trace.gate && sent == Wire(cfg, trace.up)
    }

    ghost predicate Valid()
      reads this
    {
      Linked() && trace.user.Idle? && trace.out.Quiet? && Accounted(cfg, trace)
    }

    constructor (policy: Policy, enableSecret: string, portalPassword: string)
      ensures Valid() && trace == START && sent == ""
      ensures cfg == Config(policy, TrimSpace(enableSecret), portalPassword)
    {
      cfg := Config(policy, TrimSpace(enableSecret), portalPassword);
      devLine, userTyped, ignoreLine, skipNextLF := "", "", false, false;
      expectEnablePass, injectEnableOnEnter, execPrivileged, enableMaskLen, enableInjected := false, false, false, 0, false;
      sent := "";
      trace := START;
    }

    // -------------------------------------------------------------- device output

    method ResetEnableFlow()
      modifies this
      ensures State() == GateModel.ResetEnableFlow(old(State())) && sent == old(sent) && trace == old(trace)
    {
      expectEnablePass := false;
      injectEnableOnEnter := false;
      enableInjected := false;
      enableMaskLen := 0;
    }

    method NotePrompt()
      modifies this
      ensures State() == GateModel.NotePrompt(old(State())) && sent == old(sent) && trace == old(trace)
    {
      var trim := TrimSpace(Lower(devLine));
      if EndsWith(trim, '#') {
        execPrivileged := true;
        ResetEnableFlow();
      } else if EndsWith(trim, '>') {
        execPrivileged := false;
        if expectEnablePass {
          ResetEnableFlow();
        }
      }
    }

    method MirrorByte(b: char)
      modifies this
      ensures State() == NoteByte(old(State()), b) && sent == old(sent) && trace == old(trace)
    {
      if b == '\r' || b == '\n' {
        NotePrompt();
        devLine := "";
      } else if b == BACKSPACE || b == DELETE {
        if |devLine| > 0 {
          devLine := devLine[..|devLine| - 1];
        }
      } else if b == CTRL_C {
        devLine := "";
      } else if Printable(b) {
        devLine := devLine + [b];
      }
    }

    method MirrorBytes(p: string)
      modifies this
      ensures State() == NoteBytes(old(State()), p) && sent == old(sent) && trace == old(trace)
    {
      var i := 0;
      while i < |p|
        invariant 0 <= i <= |p|
        invariant NoteBytes(State(), p[i..]) == NoteBytes(old(State()), p)
        invariant sent == old(sent) && trace == old(trace)
      {
        assert p[i..][0] == p[i] && p[i..][1..] == p[i + 1..];
        MirrorByte(p[i]);
        i := i + 1;
      }
    }

    /** The mirrored line asks for a password, perhaps sudo's. */
    method AskForPassword(asks: bool, sudo: bool) returns (autoInject: bool)
      modifies this
      ensures (State(), autoInject) == AskedForPassword(cfg, old(State()), asks, asks && sudo && cfg.portalPassword != "")
      ensures sent == old(sent) && trace == old(trace)
    {
      autoInject := false;
      if asks {
        ignoreLine := true;
        if expectEnablePass && !execPrivileged && cfg.Credential() != "" && !enableInjected {
          injectEnableOnEnter := true;
          autoInject := true;
        }
        if sudo && cfg.portalPassword != "" {
          expectEnablePass := true;
          enableInjected := false;
          injectEnableOnEnter := true;
          autoInject := true;
        }
      }
    }

    /** The end of a chunk under the mutex. */
    method NoticePasswordPrompt() returns (autoInject: bool)
      modifies this
      ensures (State(), autoInject) == NoteChunkEnd(cfg, old(State())) && sent == old(sent) && trace == old(trace)
    {
      NotePrompt();
      var trim := TrimSpace(Lower(devLine));
      var asks := Contains(trim, "password:") || Contains(trim, "passphrase:") || Contains(trim, "secret:");
      autoInject := AskForPassword(asks, Contains(trim, "[sudo]"));
    }

    method SendEnableSecret(force: bool, recent: bool) returns (injected: bool)
      modifies this
      ensures injected == MayInject(cfg, old(State()), force, recent) && trace == old(trace)
      ensures State() == if injected then Injected(cfg, old(State())) else old(State())
      ensures sent == old(sent) + if injected then cfg.Credential() + "\r" else ""
    {
      injected := false;
      if execPrivileged {
        return;
      }
      var secret := cfg.Credential();
      if secret == "" {
        return;
      }
      if !force && (enableInjected || recent) {
        return;
      }
      enableInjected := true;
      enableMaskLen := |secret|;
      ignoreLine := true;
      injected := true;
      sent := sent + (secret + "\r");
    }

    method TryAutoInjectEnable(recent: bool)
      requires Linked() && trace.out.TryInject?
      modifies this
      ensures Linked() && trace == SettleOut(cfg, old(trace), recent)
    {
      trace := StepOut(cfg, trace, recent);
      if !injectEnableOnEnter {
        return;
      }
      injectEnableOnEnter := false;
      assert Linked();
      ghost var asked := trace;
      var injected := SendEnableSecret(false, recent);
      trace := StepOut(cfg, trace, recent);
      if injected {
        WireOne(cfg, trace.up, Secret(false));
        trace := StepOut(cfg, trace, recent);
      }
    }

    /** The chunk under the mutex. */
    method MirrorChunk(p: string) returns (autoInject: bool)
      requires Linked() && trace.out.Quiet?
      modifies this
      ensures Linked() && trace == NoteChunk(cfg, old(trace), p)
      ensures trace.out == if autoInject then TryInject else Quiet
    {
      MirrorBytes(p);
      autoInject := NoticePasswordPrompt();
      trace := NoteChunk(cfg, trace, p);
    }

    /** A chunk of output updates the mirror and may send a secret; nothing else moves. */
    method NoteOutput(p: string, recent: bool)
      requires Valid()
      modifies this
      ensures Valid() && trace == Output(cfg, old(trace), p, recent)
    {
      OutputKeeps(cfg, trace, p, recent);
      ghost var goal := Output(cfg, trace, p, recent);
      var autoInject := MirrorChunk(p);
      if autoInject {
        TryAutoInjectEnable(recent);
      } else {
        QuietStays(cfg, trace, recent);
      }
      assert trace == goal;
    }

    // -------------------------------------------------------------- keystrokes

    predicate WaitingForEnablePassword()
      reads this
    {
      var secret := cfg.Credential();
      if secret == "" || execPrivileged then false else expectEnablePass
    }

    predicate ContainsEnableSecret(p: string) {
      var secret := cfg.Credential();
      secret != "" && Contains(p, secret)
    }

    function CurrentCommand(): string
      reads this
    {
      var cmd := TrimSpace(AfterPrompt(devLine));
      if cmd == "" then TrimSpace(userTyped) else cmd
    }

    method ResetLineMirror()
      modifies this
      ensures State() == GateModel.ResetLineMirror(old(State())) && sent == old(sent) && trace == old(trace)
    {
      devLine := "";
      userTyped := "";
      ignoreLine := false;
      injectEnableOnEnter := false;
    }

    /** One byte goes to the device, and its side moves on. */
    method Forward(u: Upstream, ghost rest: string)
      requires Linked() && trace.user == Sending(u, rest) && !u.Secret?
      modifies this
      ensures Linked() && trace == StepUser(cfg, old(trace)) && trace.user == Next(rest)
    {
      WireOne(cfg, trace.up, u);
      sent := sent + match u case Key(c) => [c] case LineEnd(c, _) => [c] case Interrupt => [CTRL_C];
      trace := StepUser(cfg, trace);
    }

    method HandlePasswordKeystroke(b: char, ghost rest: string) returns (consumed: bool)
      requires Linked() && trace.user == Next([b] + rest)
      modifies this
      ensures Linked() && Settle(cfg, trace) == Settle(cfg, old(trace)) && trace.out == old(trace.out)
      ensures trace.user == if consumed then Next(rest) else Typing(b, rest)
    {
      assert ([b] + rest)[0] == b && ([b] + rest)[1..] == rest;
      trace := StepUser(cfg, trace);
      if !WaitingForEnablePassword() {
        return false;
      }
      if b == '\r' || b == '\n' {
        if b == '\n' && skipNextLF {
          skipNextLF := false;
          return true;
        }
        if b == '\r' {
          skipNextLF := true;
        }
        assert Linked();
        ForceSecret(rest);
      }
      return true;
    }

    /** Enter while a password is awaited: the secret is sent at once. */
    method ForceSecret(ghost rest: string)
      requires Linked() && trace.user == Forcing(rest)
      modifies this
      ensures Linked() && Settle(cfg, trace) == Settle(cfg, old(trace)) && trace.out == old(trace.out)
      ensures trace.user == Next(rest)
    {
      var injected := SendEnableSecret(true, false);
      trace := StepUser(cfg, trace);
      if injected {
        WireOne(cfg, trace.up, Secret(true));
        trace := StepUser(cfg, trace);
      }
    }

    /** A denied line: the mirror is reset and the device interrupted. */
    method DenyLine(ghost rest: string)
      requires Linked() && trace.user == Denying(rest)
      modifies this
      ensures Linked() && Settle(cfg, trace) == Settle(cfg, old(trace)) && trace.out == old(trace.out)
      ensures trace.user == Next(rest)
    {
      ResetLineMirror();
      trace := StepUser(cfg, trace);
      Forward(Interrupt, rest);
    }

    /** The line end of an accepted enable command. */
    method BeginEnable(ghost c: char, ghost line: Line, ghost rest: string)
      requires Linked() && trace.user == Enabling(c, line, rest)
      modifies this
      ensures Linked() && Settle(cfg, trace) == Settle(cfg, old(trace)) && trace.out == old(trace.out)
      ensures trace.user == Sending(LineEnd(c, line), rest)
    {
      expectEnablePass := true;
      enableInjected := false;
      devLine := "";
      trace := StepUser(cfg, trace);
    }

    method HandleLineEnd(c: char, ghost rest: string)
      requires trace.user == Typing(c, rest) && sent == Wire(cfg, trace.up)
      requires (c == '\n' && !trace.gate.skipNextLF && State() == trace.gate)
               || (c == '\r' && State() == trace.gate.(skipNextLF := true))
      modifies this
      ensures Linked() && Settle(cfg, trace) == Settle(cfg, old(trace)) && trace.out == old(trace.out)
      ensures trace.user == Next(rest)
    {
      var line, inject := TakeLine(c, rest);
      FinishLine(c, line, inject, rest);
    }

    /** What becomes of the line end, outside the mutex. */
    method FinishLine(c: char, line: Line, inject: bool, ghost rest: string)
      requires Linked() && trace.user == AfterVerdict(c, rest, line, VerdictOn(cfg, inject, line))
      requires inject ==> cfg.Credential() != ""
      modifies this
      ensures Linked() && Settle(cfg, trace) == Settle(cfg, old(trace)) && trace.out == old(trace.out)
      ensures trace.user == Next(rest)
    {
      if inject {
        return;
      }
      if line.ignored {
        Forward(LineEnd(c, line), rest);
        return;
      }
      if line.cmd != "" && !cfg.policy.allows(line.cmd) {
        DenyLine(rest);
        return;
      }
      if line.cmd != "" && cfg.policy.enables(line.cmd) && cfg.Credential() != "" {
        BeginEnable(c, line, rest);
      }
      Forward(LineEnd(c, line), rest);
    }

    /** The stretch under the mutex: the line is taken and the typed text cleared. */
    method TakeLine(c: char, ghost rest: string) returns (line: Line, inject: bool)
      requires trace.user == Typing(c, rest) && sent == Wire(cfg, trace.up)
      requires (c == '\n' && !trace.gate.skipNextLF && State() == trace.gate)
               || (c == '\r' && State() == trace.gate.(skipNextLF := true))
      modifies this
      ensures Linked() && Settle(cfg, trace) == Settle(cfg, old(trace)) && trace.out == old(trace.out)
      ensures trace == StepUser(cfg, old(trace))
      ensures trace.user == AfterVerdict(c, rest, line, VerdictOn(cfg, inject, line))
      ensures inject ==> cfg.Credential() != ""
    {
      LineEndStep(cfg, trace, c, rest);
      SettleStep(cfg, trace);
      line, inject := ReadLine();
      trace := StepLineEnd(cfg, trace, c, rest);
    }

    method ReadLine() returns (line: Line, inject: bool)
      modifies this
      ensures State() == JudgeLine(cfg, old(State())).0 && line == JudgeLine(cfg, old(State())).1
      ensures inject == (old(State()).injectEnableOnEnter && cfg.Credential() != "")
      ensures sent == old(sent) && trace == old(trace)
    {
      var ignore := ignoreLine;
      if ignore {
        ignoreLine := false;
      }
      inject := injectEnableOnEnter && cfg.Credential() != "";
      line := Line(ignore, CurrentCommand());
      userTyped := "";
    }

    method HandleKey(c: char, ghost rest: string)
      requires Linked() && trace.user == Typing(c, rest)
      modifies this
      ensures Linked() && Settle(cfg, trace) == Settle(cfg, old(trace)) && trace.out == old(trace.out)
      ensures trace.user == Next(rest)
    {
      if c == '\n' {
        if skipNextLF {
          skipNextLF := false;
          trace := StepTyping(cfg, trace);
        } else {
          HandleLineEnd(c, rest);
        }
      } else if c == '\r' {
        skipNextLF := true;
        HandleLineEnd(c, rest);
      } else {
        TypeKey(c);
        trace := StepTyping(cfg, trace);
        Forward(Key(c), rest);
      }
    }

    method TypeKey(c: char)
      modifies this
      ensures State() == Typed(old(State()), c) && sent == old(sent) && trace == old(trace)
    {
      if c == BACKSPACE || c == DELETE {
        if |userTyped| > 0 {
          userTyped := userTyped[..|userTyped| - 1];
        }
      } else if Printable(c) {
        userTyped := userTyped + [c];
      }
    }

    method HandleByte(b: char, ghost rest: string)
      requires Linked() && trace.user == Next([b] + rest)
      modifies this
      ensures Linked() && Settle(cfg, trace) == Settle(cfg, old(trace)) && trace.out == old(trace.out)
      ensures trace.user == Next(rest)
    {
      var consumed := HandlePasswordKeystroke(b, rest);
      if !consumed {
        HandleKey(b, rest);
      }
    }

    /** A chunk of keystrokes: exactly the run of the keystroke side over it. */
    method Write(p: string)
      requires Valid()
      modifies this
      ensures Valid() && trace == Keystrokes(cfg, old(trace), p)
    {
      KeystrokesKeep(cfg, trace, p);
      ghost var goal := Keystrokes(cfg, trace, p);
      trace := TakeChunk(cfg, trace, p);
      if execPrivileged && ContainsEnableSecret(p) {
        return;
      }
      WriteBytes(p);
      assert trace == goal;
    }

    /** Byte after byte of a chunk that is not dropped. */
    method WriteBytes(p: string)
      requires Linked() && trace.user == Next(p)
      modifies this
      ensures Linked() && trace == Settle(cfg, old(trace)) && trace.out == old(trace.out)
    {
      var i := 0;
      assert p[0..] == p;
      while i < |p|
        invariant 0 <= i <= |p|
        invariant Linked() && trace.user == Next(p[i..]) && trace.out == old(trace.out)
        invariant Settle(cfg, trace) == Settle(cfg, old(trace))
      {
        assert p[i..] == [p[i]] + p[i + 1..];
        HandleByte(p[i], p[i + 1..]);
        i := i + 1;
      }
      trace := StepUser(cfg, trace);
    }
  }

  /** The writer on the output side: the gate sees the chunk before it is masked, and the user gets as many bytes
      as the device sent. */
  class GateAwareWriter {
    const gate: CommandGate
    const masker: Masker
    var shown: string

    constructor (gate: CommandGate, masker: Masker)
      ensures this.gate == gate && this.masker == masker && shown == ""
    {
      this.gate := gate;
      this.masker := masker;
      shown := "";
    }

    method Write(p: string, recent: bool)
      requires gate.Valid() && masker.Valid()
      modifies this, gate, masker
      ensures gate.Valid() && masker.Valid()
      ensures gate.trace == Output(gate.cfg, old(gate.trace), p, recent)
      ensures |shown| == |old(shown)| + |p| && old(shown) <= shown
      ensures shown == old(shown) + Masked(old(masker.seen),
                                           TwoRounds(p, TrimSpace(masker.enableSecret), TrimSpace(masker.portalPassword)))
      ensures Redaction(p, shown[|old(shown)|..])
    {
      gate.NoteOutput(p, recent);
      var out := masker.FilterDownstream(p);
      Appended(shown, out);
      shown := shown + out;
    }
  }

  lemma Appended(a: string, b: string)
    ensures (a + b)[|a|..] == b && a <= a + b
  {
  }
}
