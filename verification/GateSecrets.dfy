/**
 When the gate sends a secret or lets a line end go: what Enter and a chunk of output do, in the terms of the
 screen line, the flags and the bytes on the wire, while the other side does nothing.
 */
module GateSecrets {
  import opened Text
  import opened PasswordMasker
  import opened GateModel
  import opened GateRuns
  import opened GateLines
  import opened CmdGate

  // ---------------------------------------------------------------- the screen line

  /** What stands after the prompt: the longest end of the line without a mark. */
  lemma {:induction false} AfterPromptMeans(line: string)
    ensures var t := AfterPrompt(line);
            && |t| <= |line| && line[|line| - |t|..] == t
            && (forall i | 0 <= i < |t| :: t[i] != '#' && t[i] != '>' && t[i] != '$')
            && (|t| < |line| ==> line[|line| - |t| - 1] == '#' || line[|line| - |t| - 1] == '>' || line[|line| - |t| - 1] == '$')
  {
    if line != "" && !PromptMark(line[|line| - 1]) {
      AfterPromptMeans(line[..|line| - 1]);
    }
  }

  /** Keys by their codes: 8 and 127 erase, 32 to 126 are typed. */
  lemma TypedMeans(g: Gate, c: char)
    ensures Typed(g, c).userTyped ==
            if c as int == 8 || c as int == 127 then (if g.userTyped == "" then "" else g.userTyped[..|g.userTyped| - 1])
            else if 32 <= c as int < 127 then g.userTyped + [c]
            else g.userTyped
  {
  }

  /** On the screen 10 and 13 end the line and 3 drops it. */
  lemma NotedMeans(g: Gate, c: char)
    ensures NoteByte(g, c).devLine ==
            if c as int == 8 || c as int == 127 then (if g.devLine == "" then "" else g.devLine[..|g.devLine| - 1])
            else if c as int == 3 || c as int == 10 || c as int == 13 then ""
            else if 32 <= c as int < 127 then g.devLine + [c]
            else g.devLine
  {
  }

  /** A secret may be sent unless the device is privileged or there is no secret; unasked, once for each opened flow, and
      not within 800 ms of the one before. */
  lemma InjectionRule(cfg: Config, g: Gate, force: bool, recent: bool, secret: string)
    requires secret == if cfg.enableSecret != "" then cfg.enableSecret else cfg.portalPassword
    ensures MayInject(cfg, g, force, recent) <==>
            !g.execPrivileged && secret != "" && (force || (!g.enableInjected && !recent))
    ensures Injected(cfg, g) == g.(enableInjected := true, ignoreLine := true, enableMaskLen := |secret|)
  {
  }

  /** No byte of the chunk ends a line. */
  predicate OneLine(p: string) {
    forall i | 0 <= i < |p| :: p[i] != '\r' && p[i] != '\n'
  }

  lemma ByteNoted(g: Gate, stream: string, c: char)
    requires c != '\r' && c != '\n' && g.devLine == Displayed(stream)
    ensures NoteByte(g, c) == g.(devLine := Displayed(stream + [c]))
  {
    DisplayOneMore(stream, c);
  }

  lemma FirstOff(stream: string, p: string)
    requires p != "" && OneLine(p)
    ensures stream + [p[0]] + p[1..] == stream + p && OneLine(p[1..])
  {
  }

  lemma {:induction false} OneLineNoted(g: Gate, stream: string, p: string)
    requires OneLine(p) && g.devLine == Displayed(stream)
    ensures NoteBytes(g, p) == g.(devLine := Displayed(stream + p))
    decreases |p|
  {
    if p == "" {
      assert stream + p == stream;
    } else {
      FirstOff(stream, p);
      ByteNoted(g, stream, p[0]);
      OneLineNoted(NoteByte(g, p[0]), stream + [p[0]], p[1..]);
    }
  }

  // ---------------------------------------------------------------- Enter

  /** Enter while a password is awaited sends the secret, and not the Enter. */
  lemma EnterSendsSecret(cfg: Config, s: Session)
    requires s.user.Idle? && (cfg.enableSecret != "" || cfg.portalPassword != "")
    requires s.gate.expectEnablePass && !s.gate.execPrivileged
    ensures Keystrokes(cfg, s, "\r").up == s.up + [Secret(true)]
    ensures Wire(cfg, Keystrokes(cfg, s, "\r").up) ==
            Wire(cfg, s.up) + (if cfg.enableSecret != "" then cfg.enableSecret else cfg.portalPassword) + "\r"
  {
    var s1 := TakeChunk(cfg, s, "\r");
    SettleStep(cfg, s1);
    var s2 := StepUser(cfg, s1);
    SettleStep(cfg, s2);
    var s3 := StepUser(cfg, s2);
    SettleStep(cfg, s3);
    SettleStep(cfg, StepUser(cfg, s3));
    WireOne(cfg, s.up, Secret(true));
  }

  /** What a side that is done with its chunk leaves. */
  lemma SettledRest(cfg: Config, s: Session)
    requires s.user == Next("")
    ensures Settle(cfg, s).up == s.up && Settle(cfg, s).gate == s.gate
  {
    SettleStep(cfg, s);
  }

  lemma FirstOfChunk(cfg: Config, s: Session, c: char)
    requires s.user.Idle? && !(s.gate.execPrivileged && HoldsSecret(cfg, [c])) && !WaitingForPassword(cfg, s.gate)
    ensures var s1 := StepUser(cfg, TakeChunk(cfg, s, [c]));
            && Keystrokes(cfg, s, [c]) == Settle(cfg, s1)
            && s1.user == Typing(c, "") && s1.gate == s.gate && s1.up == s.up
  {
    var s0 := TakeChunk(cfg, s, [c]);
    SettleStep(cfg, s0);
    assert [c][0] == c && [c][1..] == "";
  }

  lemma LineEndGoes(cfg: Config, s: Session, c: char, line: Line)
    requires s.user == Sending(LineEnd(c, line), "")
    ensures Settle(cfg, s).up == s.up + [LineEnd(c, line)] && Settle(cfg, s).gate == s.gate
  {
    SettleStep(cfg, s);
    SettledRest(cfg, StepUser(cfg, s));
  }

  lemma Refuses(cfg: Config, s: Session)
    requires s.user == Denying("")
    ensures Settle(cfg, s).up == s.up + [Interrupt]
    ensures Settle(cfg, s).gate == s.gate.(devLine := "", userTyped := "", ignoreLine := false, injectEnableOnEnter := false)
  {
    SettleStep(cfg, s);
    SettleStep(cfg, StepUser(cfg, s));
    SettledRest(cfg, StepUser(cfg, StepUser(cfg, s)));
  }

  lemma Opens(cfg: Config, s: Session, c: char, line: Line)
    requires s.user == Enabling(c, line, "")
    ensures Settle(cfg, s).up == s.up + [LineEnd(c, line)]
    ensures Settle(cfg, s).gate == s.gate.(expectEnablePass := true, enableInjected := false, devLine := "")
  {
    SettleStep(cfg, s);
    LineEndGoes(cfg, StepUser(cfg, s), c, line);
  }

  /** The step that judges the line, by its gate and by where it leads. */
  lemma JudgedEnter(cfg: Config, s: Session, cmd: string)
    requires s.user == Typing('\r', "") && cmd == CurrentCommand(s.gate)
    ensures var g, s' := s.gate, StepUser(cfg, s);
            && s'.up == s.up && s'.gate == g.(skipNextLF := true, ignoreLine := false, userTyped := "")
            && s'.user == if g.injectEnableOnEnter && cfg.Credential() != "" then Next("")
                          else if !g.ignoreLine && cmd != "" && !cfg.policy.allows(cmd) then Denying("")
                          else if !g.ignoreLine && cmd != "" && cfg.policy.enables(cmd) && cfg.Credential() != "" then
                            Enabling('\r', Line(g.ignoreLine, cmd), "")
                          else Sending(LineEnd('\r', Line(g.ignoreLine, cmd)), "")
  {
    LineEndStep(cfg, s, '\r', "");
  }

  /** Where the judged line leads. */
  lemma FromThere(cfg: Config, s: Session, c: char, line: Line)
    requires s.user in {Next(""), Denying(""), Enabling(c, line, ""), Sending(LineEnd(c, line), "")}
    ensures var s' := Settle(cfg, s);
            match s.user
            case Next(_) => s'.up == s.up && s'.gate == s.gate
            case Denying(_) =>
              && s'.up == s.up + [Interrupt]
              && s'.gate == s.gate.(devLine := "", userTyped := "", ignoreLine := false, injectEnableOnEnter := false)
            case Enabling(_, _, _) =>
              && s'.up == s.up + [LineEnd(c, line)]
              && s'.gate == s.gate.(expectEnablePass := true, enableInjected := false, devLine := "")
            case _ => s'.up == s.up + [LineEnd(c, line)] && s'.gate == s.gate
  {
    match s.user
    case Next(_) => SettledRest(cfg, s);
    case Denying(_) => Refuses(cfg, s);
    case Enabling(_, _, _) => Opens(cfg, s, c, line);
    case _ => LineEndGoes(cfg, s, c, line);
  }

  /** Enter otherwise, on the line the screen shows after its prompt, or else on the typed one: nothing goes out when an
      injection is due; the device is interrupted and both lines are forgotten when the policy refuses the line; else
      the Enter goes out, and an accepted enable line opens the password flow. */
  lemma EnterOutcomes(cfg: Config, s: Session, secret: string, cmd: string)
    requires s.user.Idle? && !WaitingForPassword(cfg, s.gate) && !(s.gate.execPrivileged && HoldsSecret(cfg, "\r"))
    requires secret == if cfg.enableSecret != "" then cfg.enableSecret else cfg.portalPassword
    requires var shown := TrimSpace(AfterPrompt(s.gate.devLine));
             cmd == if shown != "" then shown else TrimSpace(s.gate.userTyped)
    ensures var g, s' := s.gate, Keystrokes(cfg, s, "\r");
            var typed := g.(skipNextLF := true, ignoreLine := false, userTyped := "");
            if g.injectEnableOnEnter && secret != "" then s'.up == s.up && s'.gate == typed
            else if !g.ignoreLine && cmd != "" && !cfg.policy.allows(cmd) then
              s'.up == s.up + [Interrupt] && s'.gate == typed.(devLine := "", injectEnableOnEnter := false)
            else
              && s'.up == s.up + [LineEnd('\r', Line(g.ignoreLine, cmd))]
              && s'.gate == if !g.ignoreLine && cmd != "" && cfg.policy.enables(cmd) && secret != ""
                            then typed.(expectEnablePass := true, enableInjected := false, devLine := "") else typed
  {
    FirstOfChunk(cfg, s, '\r');
    assert "\r" == ['\r'];
    var s1 := StepUser(cfg, TakeChunk(cfg, s, "\r"));
    SettleStep(cfg, s1);
    JudgedEnter(cfg, s1, cmd);
    FromThere(cfg, StepUser(cfg, s1), '\r', Line(s.gate.ignoreLine, cmd));
  }

  // ---------------------------------------------------------------- device output

  /** The end of a chunk that left this line, trimmed and in small letters. */
  lemma PromptNoted(cfg: Config, g: Gate, line: string)
    requires line == TrimSpace(Lower(g.devLine)) && line != "" && (line[|line| - 1] == '#' || line[|line| - 1] == '>')
    requires !Contains(line, "password:") && !Contains(line, "passphrase:") && !Contains(line, "secret:")
    ensures var (g', inject) := NoteChunkEnd(cfg, g);
            !inject && !g'.expectEnablePass && g'.execPrivileged == (line[|line| - 1] == '#')
  {
    assert NotePrompt(g).devLine == g.devLine && !PasswordPrompt(g.devLine);
  }

  lemma NothingToSend(cfg: Config, s: Session, p: string, recent: bool)
    requires !NoteOutput(cfg, s.gate, p).1
    ensures Output(cfg, s, p, recent).up == s.up && Output(cfg, s, p, recent).gate == NoteOutput(cfg, s.gate, p).0
  {
    QuietStays(cfg, NoteChunk(cfg, s, p), recent);
  }

  /** A chunk that leaves a '#' prompt marks the device as privileged and closes the flow; a '>' prompt takes the mark
      away and closes it too. */
  lemma PromptClosesFlow(cfg: Config, s: Session, p: string, recent: bool, line: string)
    requires s.out.Quiet? && s.gate.devLine == Displayed(s.shown) && OneLine(p)
    requires line == TrimSpace(Lower(Displayed(s.shown + p))) && line != "" && (line[|line| - 1] == '#' || line[|line| - 1] == '>')
    requires !Contains(line, "password:") && !Contains(line, "passphrase:") && !Contains(line, "secret:")
    ensures var s' := Output(cfg, s, p, recent);
            s'.up == s.up && !s'.gate.expectEnablePass && s'.gate.execPrivileged == (line[|line| - 1] == '#')
  {
    OneLineNoted(s.gate, s.shown, p);
    PromptNoted(cfg, NoteBytes(s.gate, p), line);
    NothingToSend(cfg, s, p, recent);
  }

  lemma PasswordNoted(cfg: Config, g: Gate, line: string)
    requires line == TrimSpace(Lower(g.devLine)) && (line == "" || (line[|line| - 1] != '#' && line[|line| - 1] != '>'))
    requires Contains(line, "password:") || Contains(line, "passphrase:") || Contains(line, "secret:")
    requires cfg.Credential() != "" && g.expectEnablePass && !g.execPrivileged && !g.enableInjected
    ensures var (g', inject) := NoteChunkEnd(cfg, g);
            inject && g'.injectEnableOnEnter && !g'.execPrivileged && !g'.enableInjected
  {
    assert NotePrompt(g) == g && PasswordPrompt(g.devLine);
  }

  lemma InjectionRuns(cfg: Config, s: Session)
    requires s.out.TryInject? && s.gate.injectEnableOnEnter && cfg.Credential() != ""
    requires !s.gate.execPrivileged && !s.gate.enableInjected
    ensures SettleOut(cfg, s, false).up == s.up + [Secret(false)]
  {
  }

  /** A chunk that leaves a password prompt on the screen while the flow is open sends the secret at once. */
  lemma PromptSendsSecret(cfg: Config, s: Session, p: string, line: string)
    requires s.out.Quiet? && (cfg.enableSecret != "" || cfg.portalPassword != "") && s.gate.devLine == Displayed(s.shown)
    requires s.gate.expectEnablePass && !s.gate.execPrivileged && !s.gate.enableInjected && OneLine(p)
    requires line == TrimSpace(Lower(Displayed(s.shown + p)))
    requires line == "" || (line[|line| - 1] != '#' && line[|line| - 1] != '>')
    requires Contains(line, "password:") || Contains(line, "passphrase:") || Contains(line, "secret:")
    ensures Output(cfg, s, p, false).up == s.up + [Secret(false)]
  {
    OneLineNoted(s.gate, s.shown, p);
    PasswordNoted(cfg, NoteBytes(s.gate, p), line);
    InjectionRuns(cfg, NoteChunk(cfg, s, p));
  }

  lemma SudoNoted(cfg: Config, g: Gate, line: string)
    requires line == TrimSpace(Lower(g.devLine)) && (line == "" || (line[|line| - 1] != '#' && line[|line| - 1] != '>'))
    requires Contains(line, "password:") || Contains(line, "passphrase:") || Contains(line, "secret:")
    requires Contains(line, "[sudo]") && cfg.portalPassword != "" && !g.execPrivileged
    ensures var (g', inject) := NoteChunkEnd(cfg, g);
            inject && g'.injectEnableOnEnter && g'.expectEnablePass && !g'.execPrivileged && !g'.enableInjected
  {
    assert NotePrompt(g) == g && PasswordPrompt(g.devLine) && SudoPrompt(cfg, g.devLine);
  }

  /** So does a chunk that leaves sudo's password prompt when there is a portal password, flow or no flow, and even if a
      secret was sent before. */
  lemma SudoSendsSecret(cfg: Config, s: Session, p: string, line: string)
    requires s.out.Quiet? && cfg.portalPassword != "" && s.gate.devLine == Displayed(s.shown)
    requires !s.gate.execPrivileged && OneLine(p)
    requires line == TrimSpace(Lower(Displayed(s.shown + p))) && Contains(line, "[sudo]")
    requires line == "" || (line[|line| - 1] != '#' && line[|line| - 1] != '>')
    requires Contains(line, "password:") || Contains(line, "passphrase:") || Contains(line, "secret:")
    ensures Output(cfg, s, p, false).up == s.up + [Secret(false)]
  {
    OneLineNoted(s.gate, s.shown, p);
    SudoNoted(cfg, NoteBytes(s.gate, p), line);
    InjectionRuns(cfg, NoteChunk(cfg, s, p));
  }

  // ---------------------------------------------------------------- what the credit counts

  lemma EnablingStep(cfg: Config, s: Session)
    requires !s.user.Enabling?
    ensures var g, s' := s.gate, StepUser(cfg, s);
            s'.user.Enabling? ==>
              && s.user.Typing? && s'.enables == s.enables && !g.ignoreLine && CurrentCommand(g) != ""
              && cfg.policy.allows(CurrentCommand(g)) && cfg.policy.enables(CurrentCommand(g))
  {
    if s.user.Typing? {
      var g := if s.user.c == '\r' then s.gate.(skipNextLF := true) else s.gate;
      assert CurrentCommand(g) == CurrentCommand(s.gate);
    }
  }

  /** Credit is given for an accepted enable line, once, and for a chunk that leaves a "[sudo]" password prompt when there
      is a portal password; for nothing else. */
  lemma CreditsAreCounted(cfg: Config, s: Session, a: Action)
    ensures var s' := Apply(cfg, s, a);
            && s'.enables == s.enables + (if a.UserStep? && s.user.Enabling? then 1 else 0)
            && (s'.sudoPrompts != s.sudoPrompts ==>
                  && a.DeviceChunk? && s'.sudoPrompts == s.sudoPrompts + 1 && cfg.portalPassword != ""
                  && var line := TrimSpace(Lower(s'.gate.devLine));
                     && (Contains(line, "password:") || Contains(line, "passphrase:") || Contains(line, "secret:"))
                     && Contains(line, "[sudo]"))
            && (s'.user.Enabling? && !s.user.Enabling? ==>
                  && a.UserStep? && s.user.Typing? && !s.gate.ignoreLine && CurrentCommand(s.gate) != ""
                  && cfg.policy.allows(CurrentCommand(s.gate)) && cfg.policy.enables(CurrentCommand(s.gate)))
  {
    if a.UserStep? {
      UserCredit(cfg, s);
    }
  }

  lemma UserCredit(cfg: Config, s: Session)
    ensures var s' := StepUser(cfg, s);
            && s'.sudoPrompts == s.sudoPrompts
            && s'.enables == s.enables + (if s.user.Enabling? then 1 else 0)
            && (s'.user.Enabling? && !s.user.Enabling? ==>
                  && s.user.Typing? && !s.gate.ignoreLine && CurrentCommand(s.gate) != ""
                  && cfg.policy.allows(CurrentCommand(s.gate)) && cfg.policy.enables(CurrentCommand(s.gate)))
  {
    UserCreditFrame(cfg, s);
    if s.user.Typing? {
      TypingCreditFrame(cfg, s);
    }
    if !s.user.Enabling? {
      EnablingStep(cfg, s);
    }
  }
}
