/**
 Every interleaving of the gate's two goroutines.  Each side stands at some point of its code; a step runs one
 side to its next point, which is one stretch under the mutex or one write to the device.  A run is any
 sequence of actions, so a theorem about all of them covers every input, every chunking and every schedule.

 `fed`, `eaten`, `kept`, `now`, `log`, `judged`, `denied`, `enables`, `sudoPrompts`, `shown`, `screens` and `views` are
 history.
 */
module GateRuns {
  import opened Text
  import opened PasswordMasker
  import opened GateModel

  /** Where the keystroke side is; `rest` is what remains of the chunk being written. */
  datatype UserPc =
    | Idle
    | Next(rest: string)
    | Typing(c: char, rest: string)
    | Forcing(rest: string)
    | SendingForced(rest: string)
    | Denying(rest: string)
    | Enabling(c: char, line: Line, rest: string)
    | Sending(u: Upstream, rest: string)

  /** Where the output side is. */
  datatype OutPc = Quiet | TryInject | Injecting | SendingSecret

  datatype Session = Session(
    gate: Gate,
    user: UserPc,
    out: OutPc,
    up: seq<Upstream>,       // written to the device
    fed: string,             // every byte the user's side was given
    eaten: string,           // those whose fate is decided, in order
    kept: seq<bool>,         // and whether each is forwarded
    now: Moment,             // of the byte that is being handled
    log: seq<Moment>,        // of the bytes whose fate is decided
    judged: seq<Line>,       // the lines line ends were judged on
    denied: nat,             // how many of them were denied
    enables: nat,            // accepted enable lines
    sudoPrompts: nat,        // output chunks that left a "[sudo]" password prompt
    shown: string,           // what the device wrote since the mirror was last forgotten
    screens: seq<string>,    // the line on the screen as each chunk since the last line end left it
    views: seq<View>)        // what each line end was judged in view of

  /** The line on the screen, and the lines that chunks had left there since the line end before. */
  datatype View = View(screen: string, screens: seq<string>)

  /** What a byte met: its chunk and the gate when that was taken, the gate when the byte was checked against an awaited
      password, and the gate when its fate was decided. */
  datatype Moment = Moment(chunk: string, taken: Gate, checked: Gate, gate: Gate)

  const START := Session(FRESH, Idle, Quiet, [], "", "", [], Moment("", FRESH, FRESH, FRESH), [], [], 0, 0, 0, "", [], [])

  /** The last line of what a device has written: backspaces erase, breaks and interrupts start over. */
  function Displayed(stream: string): string {
    if stream == "" || stream[|stream| - 1] == '\r' || stream[|stream| - 1] == '\n' then ""
    else Mirrored(Displayed(stream[..|stream| - 1]), stream[|stream| - 1])
  }

  datatype Action =
    | UserChunk(p: string)
    | DeviceChunk(p: string)
    | UserStep
    | OutStep(recent: bool)

  /** The fate of the next byte, decided at this gate. */
  function Decide(s: Session, gate: Gate, c: char, forward: bool): Session {
    s.(eaten := s.eaten + [c], kept := s.kept + [forward], log := s.log + [s.now.(gate := gate)])
  }

  function DropAll(n: nat): (k: seq<bool>)
    ensures |k| == n && forall i | 0 <= i < n :: !k[i]
  {
    seq(n, _ => false)
  }

  /** A chunk arrives: at a privileged prompt one that holds the secret is dropped whole. */
  function TakeChunk(cfg: Config, s: Session, p: string): Session {
    var s1 := s.(fed := s.fed + p, now := Moment(p, s.gate, s.gate, s.gate));
    if s.gate.execPrivileged && HoldsSecret(cfg, p) then
      s1.(eaten := s.eaten + p, kept := s.kept + DropAll(|p|), log := s.log + seq(|p|, _ => s1.now))
    else s1.(user := Next(p))
  }

  /** The check whether a password is awaited, and what it does to the next byte. */
  function StepNext(cfg: Config, s: Session): Session
    requires s.user.Next?
  {
    var rest := s.user.rest;
    if rest == "" then s.(user := Idle)
    else
      var c := rest[0];
      var s1 := s.(now := s.now.(checked := s.gate));
      if !WaitingForPassword(cfg, s.gate) then s1.(user := Typing(c, rest[1..]))
      else if c == '\n' && s.gate.skipNextLF then
        Decide(s1.(gate := s.gate.(skipNextLF := false), user := Next(rest[1..])), s.gate, c, false)
      else if c == '\r' || c == '\n' then
        Decide(s1.(gate := if c == '\r' then s.gate.(skipNextLF := true) else s.gate, user := Forcing(rest[1..])),
               s.gate, c, false)
      else Decide(s1.(user := Next(rest[1..])), s.gate, c, false)
  }

  /** Where the keystroke side goes from there. */
  function AfterVerdict(c: char, rest: string, line: Line, verdict: Verdict): UserPc {
    match verdict
    case Swallow => Next(rest)
    case Forward => Sending(LineEnd(c, line), rest)
    case Deny => Denying(rest)
    case Enable => Enabling(c, line, rest)
  }

  function StepLineEnd(cfg: Config, s: Session, c: char, rest: string): Session {
    var (g, line, verdict) := JudgeLine(cfg, if c == '\r' then s.gate.(skipNextLF := true) else s.gate);
    var s1 := s.(gate := g, judged := s.judged + [line], views := s.views + [View(Displayed(s.shown), s.screens)],
                 screens := [], denied := s.denied + if verdict.Deny? then 1 else 0,
                 user := AfterVerdict(c, rest, line, verdict));
    Decide(s1, s.gate, c, verdict.Forward? || verdict.Enable?)
  }

  function StepTyping(cfg: Config, s: Session): Session
    requires s.user.Typing?
  {
    var c, rest := s.user.c, s.user.rest;
    if c == '\n' && s.gate.skipNextLF then
      Decide(s.(gate := s.gate.(skipNextLF := false), user := Next(rest)), s.gate, c, false)
    else if c == '\r' || c == '\n' then StepLineEnd(cfg, s, c, rest)
    else Decide(s.(gate := Typed(s.gate, c), user := Sending(Key(c), rest)), s.gate, c, true)
  }

  function StepUser(cfg: Config, s: Session): Session {
    match s.user
    case Idle => s
    case Next(_) => StepNext(cfg, s)
    case Typing(_, _) => StepTyping(cfg, s)
    case Forcing(rest) =>
      if MayInject(cfg, s.gate, true, false) then s.(gate := Injected(cfg, s.gate), user := SendingForced(rest))
      else s.(user := Next(rest))
    case SendingForced(rest) => s.(up := s.up + [Secret(true)], user := Next(rest))
    case Denying(rest) =>
      s.(gate := ResetLineMirror(s.gate), user := Sending(Interrupt, rest), shown := "", screens := [])
    case Enabling(c, line, rest) =>
      s.(gate := OpenEnable(s.gate), enables := s.enables + 1, user := Sending(LineEnd(c, line), rest), shown := "")
    case Sending(u, rest) => s.(up := s.up + [u], user := Next(rest))
  }

  /** A chunk of device output: the mirror is updated, and perhaps an injection is to be tried. */
  function NoteChunk(cfg: Config, s: Session, p: string): Session {
    var (g, inject) := NoteOutput(cfg, s.gate, p);
    s.(gate := g,
       shown := s.shown + p,
       screens := s.screens + [Displayed(s.shown + p)],
       out := if inject then TryInject else Quiet,
       sudoPrompts := if SudoPrompt(cfg, g.devLine) then s.sudoPrompts + 1 else s.sudoPrompts)
  }

  function StepOut(cfg: Config, s: Session, recent: bool): Session {
    match s.out
    case Quiet => s
    case TryInject =>
      if s.gate.injectEnableOnEnter then s.(gate := s.gate.(injectEnableOnEnter := false), out := Injecting)
      else s.(out := Quiet)
    case Injecting =>
      if MayInject(cfg, s.gate, false, recent) then s.(gate := Injected(cfg, s.gate), out := SendingSecret)
      else s.(out := Quiet)
    case SendingSecret => s.(up := s.up + [Secret(false)], out := Quiet)
  }

  function Apply(cfg: Config, s: Session, a: Action): Session {
    match a
    case UserChunk(p) => if s.user.Idle? then TakeChunk(cfg, s, p) else s
    case DeviceChunk(p) => if s.out.Quiet? then NoteChunk(cfg, s, p) else s
    case UserStep => StepUser(cfg, s)
    case OutStep(recent) => StepOut(cfg, s, recent)
  }

  function Run(cfg: Config, s: Session, actions: seq<Action>): Session
    decreases |actions|
  {
    if actions == [] then s else Run(cfg, Apply(cfg, s, actions[0]), actions[1..])
  }

  // ---------------------------------------------------------------- enable-secret credit

  function UnforcedSecrets(up: seq<Upstream>): nat {
    multiset(up)[Secret(false)]
  }

  /** An opened password flow whose secret has not been sent. */
  function Token(g: Gate): nat {
    if g.expectEnablePass && !g.enableInjected then 1 else 0
  }

  predicate CreditInv(s: Session) {
    && (s.gate.injectEnableOnEnter ==> s.gate.expectEnablePass)
    && (s.out.TryInject? || s.out.Injecting? ==> s.gate.expectEnablePass)
    && (s.user.Sending? ==> !s.user.u.Secret?)
    && UnforcedSecrets(s.up) + (if s.out.SendingSecret? then 1 else 0) + Token(s.gate) <= s.enables + s.sudoPrompts
  }

  lemma CountOne(up: seq<Upstream>, u: Upstream)
    ensures UnforcedSecrets(up + [u]) == UnforcedSecrets(up) + if u == Secret(false) then 1 else 0
  {
  }

  /** Output can close the password flow, never open it. */
  predicate NotOpened(g: Gate, g': Gate) {
    && (g'.expectEnablePass ==> g.expectEnablePass)
    && ((g.injectEnableOnEnter ==> g.expectEnablePass) ==> g'.injectEnableOnEnter ==> g'.expectEnablePass)
    && Token(g') <= Token(g)
  }

  lemma PromptNotOpened(g: Gate)
    ensures NotOpened(g, NotePrompt(g))
  {
  }

  lemma NoteByteNotOpened(g: Gate, b: char)
    ensures NotOpened(g, NoteByte(g, b))
  {
    if b == '\r' || b == '\n' {
      PromptNotOpened(g);
    } else {
      MirrorNotOpened(g, Mirrored(g.devLine, b));
    }
  }

  lemma MirrorNotOpened(g: Gate, line: string)
    ensures NotOpened(g, g.(devLine := line))
  {
  }

  lemma {:induction false} NoteBytesNotOpened(g: Gate, p: string)
    ensures NotOpened(g, NoteBytes(g, p))
    decreases |p|
  {
    if p != "" {
      NoteByteNotOpened(g, p[0]);
      NoteBytesNotOpened(NoteByte(g, p[0]), p[1..]);
    }
  }

  lemma NoteOutputCredit(cfg: Config, g: Gate, p: string)
    requires g.injectEnableOnEnter ==> g.expectEnablePass
    ensures var (g', inject) := NoteOutput(cfg, g, p);
            && (g'.injectEnableOnEnter ==> g'.expectEnablePass)
            && (inject ==> g'.expectEnablePass)
            && Token(g') <= Token(g) + if SudoPrompt(cfg, g'.devLine) then 1 else 0
  {
    NoteBytesNotOpened(g, p);
    ChunkEndCredit(cfg, NoteBytes(g, p));
  }

  lemma ChunkEndCredit(cfg: Config, g: Gate)
    requires g.injectEnableOnEnter ==> g.expectEnablePass
    ensures var (g', inject) := NoteChunkEnd(cfg, g);
            && (g'.injectEnableOnEnter ==> g'.expectEnablePass)
            && (inject ==> g'.expectEnablePass)
            && Token(g') <= Token(g) + if SudoPrompt(cfg, g'.devLine) then 1 else 0
  {
    PromptNotOpened(g);
  }

  /** A keystroke step opens the flow only by accepting an enable line, and writes no unforced secret. */
  lemma UserCreditFrame(cfg: Config, s: Session)
    ensures var s' := StepUser(cfg, s);
            && s'.out == s.out && s'.sudoPrompts == s.sudoPrompts
            && (s'.gate.injectEnableOnEnter ==> s.gate.injectEnableOnEnter)
            && (s.gate.expectEnablePass ==> s'.gate.expectEnablePass)
            && Token(s'.gate) + s.enables <= Token(s.gate) + s'.enables
            && (s'.user.Sending? ==> !s'.user.u.Secret?)
            && (s'.up == s.up || (s.user.Sending? && s'.up == s.up + [s.user.u]) || s'.up == s.up + [Secret(true)])
  {
    match s.user
    case Typing(_, _) => TypingCreditFrame(cfg, s);
    case Next(_) =>
    case _ =>
  }

  /** A typed byte leaves the password flow as it is. */
  lemma TypingCreditFrame(cfg: Config, s: Session)
    requires s.user.Typing?
    ensures var s' := StepTyping(cfg, s);
            && s'.out == s.out && s'.sudoPrompts == s.sudoPrompts && s'.enables == s.enables && s'.up == s.up
            && s'.gate.injectEnableOnEnter == s.gate.injectEnableOnEnter
            && s'.gate.expectEnablePass == s.gate.expectEnablePass && s'.gate.enableInjected == s.gate.enableInjected
            && (s'.user.Sending? ==> !s'.user.u.Secret?)
  {
    var c, rest := s.user.c, s.user.rest;
    if (c == '\r' || c == '\n') && !(c == '\n' && s.gate.skipNextLF) {
      LineEndCreditFrame(cfg, s, c, rest);
    }
  }

  lemma LineEndCreditFrame(cfg: Config, s: Session, c: char, rest: string)
    ensures var s' := StepLineEnd(cfg, s, c, rest);
            && s'.out == s.out && s'.sudoPrompts == s.sudoPrompts && s'.enables == s.enables && s'.up == s.up
            && s'.gate.injectEnableOnEnter == s.gate.injectEnableOnEnter
            && s'.gate.expectEnablePass == s.gate.expectEnablePass && s'.gate.enableInjected == s.gate.enableInjected
            && (s'.user.Sending? ==> !s'.user.u.Secret?)
  {
    var g := if c == '\r' then s.gate.(skipNextLF := true) else s.gate;
    JudgingKeepsToken(cfg, g);
  }

  lemma CreditUser(cfg: Config, s: Session)
    requires CreditInv(s)
    ensures CreditInv(StepUser(cfg, s))
  {
    UserCreditFrame(cfg, s);
    CountOne(s.up, Secret(true));
    if s.user.Sending? {
      CountOne(s.up, s.user.u);
    }
  }

  lemma JudgingKeepsToken(cfg: Config, g: Gate)
    ensures var g' := JudgeLine(cfg, g).0;
            && g'.injectEnableOnEnter == g.injectEnableOnEnter
            && g'.expectEnablePass == g.expectEnablePass && g'.enableInjected == g.enableInjected
  {
  }

  lemma CreditOut(cfg: Config, s: Session, recent: bool)
    requires CreditInv(s)
    ensures CreditInv(StepOut(cfg, s, recent))
  {
    CountOne(s.up, Secret(false));
  }

  lemma CreditStep(cfg: Config, s: Session, a: Action)
    requires CreditInv(s)
    ensures CreditInv(Apply(cfg, s, a))
  {
    match a
    case UserChunk(_) =>
    case DeviceChunk(p) =>
      if s.out.Quiet? {
        NoteOutputCredit(cfg, s.gate, p);
      }
    case UserStep => CreditUser(cfg, s);
    case OutStep(recent) => CreditOut(cfg, s, recent);
  }

  // ---------------------------------------------------------------- conservation of the user's bytes

  predicate FromUser(u: Upstream) {
    u.Key? || u.LineEnd?
  }

  /** The user's bytes among what reached the device, in order. */
  function UserBytes(up: seq<Upstream>): string {
    if up == [] then ""
    else UserBytes(up[..|up| - 1]) + if FromUser(up[|up| - 1]) then [up[|up| - 1].c] else ""
  }

  /** The bytes at the marked positions, in order. */
  function Selected(bytes: string, marks: seq<bool>): string
    requires |bytes| == |marks|
  {
    if bytes == "" then ""
    else
      var n := |bytes| - 1;
      Selected(bytes[..n], marks[..n]) + if marks[n] then [bytes[n]] else ""
  }

  function Interrupts(up: seq<Upstream>): nat {
    multiset(up)[Interrupt]
  }

  /** The byte that is decided but not yet written. */
  function InHand(pc: UserPc): string {
    match pc
    case Enabling(c, _, _) => [c]
    case Sending(u, _) => if FromUser(u) then [u.c] else ""
    case _ => ""
  }

  /** The bytes of the current chunk whose fate is open. */
  function Open(pc: UserPc): string {
    match pc
    case Idle => ""
    case Next(rest) => rest
    case Typing(c, rest) => [c] + rest
    case Forcing(rest) => rest
    case SendingForced(rest) => rest
    case Denying(rest) => rest
    case Enabling(_, _, rest) => rest
    case Sending(_, rest) => rest
  }

  /** A line end may go to the device if its line was ignored, empty, or accepted by the policy. */
  predicate Justified(cfg: Config, judged: seq<Line>, u: Upstream) {
    u.LineEnd? ==> u.line in judged && (u.line.ignored || u.line.cmd == "" || cfg.policy.allows(u.line.cmd))
  }

  /** The input is the decided bytes, then the open ones; the kept ones are written, but for the one in hand. */
  predicate BytesInv(up: seq<Upstream>, pc: UserPc, fed: string, eaten: string, kept: seq<bool>, denied: nat) {
    && |eaten| == |kept|
    && UserBytes(up) + InHand(pc) == Selected(eaten, kept)
    && eaten + Open(pc) == fed
    && Interrupts(up) + (if pc.Denying? || (pc.Sending? && pc.u.Interrupt?) then 1 else 0) == denied
  }

  predicate LinesInv(cfg: Config, up: seq<Upstream>, pc: UserPc, judged: seq<Line>) {
    && (forall i | 0 <= i < |up| :: Justified(cfg, judged, up[i]))
    && (pc.Sending? ==> !pc.u.Secret? && Justified(cfg, judged, pc.u))
    && (pc.Enabling? ==> Justified(cfg, judged, LineEnd(pc.c, pc.line)))
  }

  predicate FlowInv(cfg: Config, s: Session) {
    && BytesInv(s.up, s.user, s.fed, s.eaten, s.kept, s.denied)
    && LinesInv(cfg, s.up, s.user, s.judged)
  }

  lemma WriteOne(up: seq<Upstream>, u: Upstream)
    ensures UserBytes(up + [u]) == UserBytes(up) + if FromUser(u) then [u.c] else ""
    ensures Interrupts(up + [u]) == Interrupts(up) + if u == Interrupt then 1 else 0
  {
    assert (up + [u])[..|up|] == up;
  }

  lemma SelectOne(bytes: string, marks: seq<bool>, c: char, keep: bool)
    requires |bytes| == |marks|
    ensures Selected(bytes + [c], marks + [keep]) == Selected(bytes, marks) + if keep then [c] else ""
  {
    assert (bytes + [c])[..|bytes|] == bytes && (marks + [keep])[..|marks|] == marks;
  }

  lemma {:induction false} SelectNone(bytes: string, marks: seq<bool>, p: string)
    requires |bytes| == |marks|
    ensures Selected(bytes + p, marks + DropAll(|p|)) == Selected(bytes, marks)
    decreases |p|
  {
    if p == "" {
      assert bytes + p == bytes && marks + DropAll(0) == marks;
    } else {
      var init, last := p[..|p| - 1], p[|p| - 1];
      SelectNone(bytes, marks, init);
      SelectOne(bytes + init, marks + DropAll(|init|), last, false);
      assert bytes + p == bytes + init + [last];
      assert marks + DropAll(|p|) == marks + DropAll(|init|) + [false];
    }
  }

  predicate Interrupting(pc: UserPc) {
    pc.Denying? || (pc.Sending? && pc.u.Interrupt?)
  }

  /** One more byte decided: dropped, or kept and in hand. */
  lemma DecideInv(up: seq<Upstream>, pc: UserPc, pc': UserPc, c: char, fed: string, eaten: string, kept: seq<bool>, denied: nat)
    requires BytesInv(up, pc, fed, eaten, kept, denied)
    requires InHand(pc) == "" && !Interrupting(pc) && Open(pc) == [c] + Open(pc')
    requires InHand(pc') == "" || InHand(pc') == [c]
    ensures BytesInv(up, pc', fed, eaten + [c], kept + [InHand(pc') != ""], denied + if Interrupting(pc') then 1 else 0)
  {
    SelectOne(eaten, kept, c, InHand(pc') != "");
    Regroup(eaten, c, Open(pc'));
    NothingInHand(UserBytes(up));
  }

  lemma Regroup(a: string, c: char, b: string)
    ensures a + [c] + b == a + ([c] + b)
  {
  }

  lemma NothingInHand(a: string)
    ensures a + "" == a
  {
  }

  /** A move that changes neither what is open nor what is in hand. */
  lemma MoveInv(up: seq<Upstream>, pc: UserPc, pc': UserPc, fed: string, eaten: string, kept: seq<bool>, denied: nat)
    requires BytesInv(up, pc, fed, eaten, kept, denied)
    requires InHand(pc') == InHand(pc) && Open(pc') == Open(pc) && Interrupting(pc') == Interrupting(pc)
    ensures BytesInv(up, pc', fed, eaten, kept, denied)
  {
  }

  /** A write: what was in hand, if anything, is now on the device's side. */
  lemma WriteInv(up: seq<Upstream>, pc: UserPc, u: Upstream, rest: string, fed: string, eaten: string, kept: seq<bool>, denied: nat)
    requires BytesInv(up, pc, fed, eaten, kept, denied)
    requires pc == Sending(u, rest) || (pc == SendingForced(rest) && u == Secret(true))
    ensures BytesInv(up + [u], Next(rest), fed, eaten, kept, denied)
  {
    WriteOne(up, u);
  }

  lemma SecretInv(up: seq<Upstream>, pc: UserPc, fed: string, eaten: string, kept: seq<bool>, denied: nat)
    requires BytesInv(up, pc, fed, eaten, kept, denied)
    ensures BytesInv(up + [Secret(false)], pc, fed, eaten, kept, denied)
  {
    WriteOne(up, Secret(false));
  }

  lemma ChunkInv(up: seq<Upstream>, p: string, fed: string, eaten: string, kept: seq<bool>, denied: nat)
    requires BytesInv(up, Idle, fed, eaten, kept, denied)
    ensures BytesInv(up, Idle, fed + p, eaten + p, kept + DropAll(|p|), denied)
    ensures BytesInv(up, Next(p), fed + p, eaten, kept, denied)
  {
    SelectNone(eaten, kept, p);
  }

  lemma LinesGrow(cfg: Config, up: seq<Upstream>, pc: UserPc, judged: seq<Line>, line: Line)
    requires LinesInv(cfg, up, pc, judged)
    ensures LinesInv(cfg, up, pc, judged + [line])
  {
    forall i | 0 <= i < |up| ensures Justified(cfg, judged + [line], up[i]) {
      assert Justified(cfg, judged, up[i]);
    }
  }

  lemma LinesMove(cfg: Config, up: seq<Upstream>, pc: UserPc, pc': UserPc, judged: seq<Line>)
    requires LinesInv(cfg, up, pc, judged)
    requires pc'.Sending? ==> !pc'.u.Secret? && Justified(cfg, judged, pc'.u)
    requires pc'.Enabling? ==> Justified(cfg, judged, LineEnd(pc'.c, pc'.line))
    ensures LinesInv(cfg, up, pc', judged)
  {
  }

  lemma LinesWrite(cfg: Config, up: seq<Upstream>, pc: UserPc, u: Upstream, judged: seq<Line>)
    requires LinesInv(cfg, up, pc, judged) && Justified(cfg, judged, u)
    ensures LinesInv(cfg, up + [u], pc, judged)
  {
  }

  // ---------------------------------------------------------------- each step keeps it

  lemma OutFrame(cfg: Config, s: Session, recent: bool)
    ensures var s' := StepOut(cfg, s, recent);
            && s'.user == s.user && s'.fed == s.fed && s'.eaten == s.eaten && s'.kept == s.kept && s'.denied == s.denied
            && s'.judged == s.judged && (s'.up == s.up || s'.up == s.up + [Secret(false)])
  {
  }

  lemma OutKeepsFlow(cfg: Config, s: Session, recent: bool)
    requires FlowInv(cfg, s)
    ensures FlowInv(cfg, StepOut(cfg, s, recent))
  {
    OutFrame(cfg, s, recent);
    SecretInv(s.up, s.user, s.fed, s.eaten, s.kept, s.denied);
    LinesWrite(cfg, s.up, s.user, Secret(false), s.judged);
  }

  lemma ChunkKeepsFlow(cfg: Config, s: Session, p: string)
    requires FlowInv(cfg, s) && s.user.Idle?
    ensures FlowInv(cfg, TakeChunk(cfg, s, p))
  {
    ChunkInv(s.up, p, s.fed, s.eaten, s.kept, s.denied);
    LinesMove(cfg, s.up, s.user, Next(p), s.judged);
  }

  /** What a step at the head of the loop changes, besides the gate. */
  lemma NextFrame(cfg: Config, s: Session)
    requires s.user.Next? && s.user.rest != ""
    ensures var s' := StepNext(cfg, s);
            var c, rest := s.user.rest[0], s.user.rest[1..];
            && s'.up == s.up && s'.fed == s.fed && s'.judged == s.judged && s'.denied == s.denied
            && ((s'.user == Typing(c, rest) && s'.eaten == s.eaten && s'.kept == s.kept)
                || ((s'.user == Next(rest) || s'.user == Forcing(rest)) && s'.eaten == s.eaten + [c] && s'.kept == s.kept + [false]))
  {
  }

  /** The next byte is taken up, or decided and dropped. */
  lemma NextByteKeepsFlow(cfg: Config, s: Session, s': Session, c: char, rest: string)
    requires FlowInv(cfg, s) && s.user == Next([c] + rest)
    requires s'.up == s.up && s'.fed == s.fed && s'.judged == s.judged && s'.denied == s.denied
    requires (s'.user == Typing(c, rest) && s'.eaten == s.eaten && s'.kept == s.kept)
             || ((s'.user == Next(rest) || s'.user == Forcing(rest)) && s'.eaten == s.eaten + [c] && s'.kept == s.kept + [false])
    ensures FlowInv(cfg, s')
  {
    LinesMove(cfg, s.up, s.user, s'.user, s.judged);
    if s'.user.Typing? {
      MoveInv(s.up, s.user, s'.user, s.fed, s.eaten, s.kept, s.denied);
    } else {
      DecideInv(s.up, s.user, s'.user, c, s.fed, s.eaten, s.kept, s.denied);
    }
  }

  lemma NextKeepsFlow(cfg: Config, s: Session)
    requires FlowInv(cfg, s) && s.user.Next?
    ensures FlowInv(cfg, StepNext(cfg, s))
  {
    if s.user.rest == "" {
      LinesMove(cfg, s.up, s.user, Idle, s.judged);
      MoveInv(s.up, s.user, Idle, s.fed, s.eaten, s.kept, s.denied);
    } else {
      var c, rest := s.user.rest[0], s.user.rest[1..];
      NextFrame(cfg, s);
      assert s.user.rest == [c] + rest;
      NextByteKeepsFlow(cfg, s, StepNext(cfg, s), c, rest);
    }
  }

  /** Only an ignored, empty or accepted line is forwarded. */
  lemma VerdictIsJustified(cfg: Config, g: Gate)
    ensures var (_, line, verdict) := JudgeLine(cfg, g);
            verdict.Forward? || verdict.Enable? ==> line.ignored || line.cmd == "" || cfg.policy.allows(line.cmd)
  {
  }

  lemma LineEndFrame(cfg: Config, s: Session, c: char, rest: string)
    ensures var s' := StepLineEnd(cfg, s, c, rest);
            var (_, line, verdict) := JudgeLine(cfg, if c == '\r' then s.gate.(skipNextLF := true) else s.gate);
            var pc := AfterVerdict(c, rest, line, verdict);
            && s'.up == s.up && s'.fed == s.fed && s'.judged == s.judged + [line] && s'.eaten == s.eaten + [c]
            && s'.user == pc && s'.kept == s.kept + [InHand(pc) != ""]
            && s'.denied == s.denied + if Interrupting(pc) then 1 else 0
  {
  }

  lemma LineEndKeepsFlow(cfg: Config, s: Session, c: char, rest: string)
    requires FlowInv(cfg, s) && s.user == Typing(c, rest)
    ensures FlowInv(cfg, StepLineEnd(cfg, s, c, rest))
  {
    var g := if c == '\r' then s.gate.(skipNextLF := true) else s.gate;
    var (_, line, verdict) := JudgeLine(cfg, g);
    var pc := AfterVerdict(c, rest, line, verdict);
    VerdictIsJustified(cfg, g);
    LineEndFrame(cfg, s, c, rest);
    LinesGrow(cfg, s.up, s.user, s.judged, line);
    assert line in s.judged + [line];
    LinesMove(cfg, s.up, s.user, pc, s.judged + [line]);
    DecideInv(s.up, s.user, pc, c, s.fed, s.eaten, s.kept, s.denied);
  }

  lemma TypingFrame(cfg: Config, s: Session)
    requires s.user.Typing?
    ensures var s' := StepTyping(cfg, s);
            var c, rest := s.user.c, s.user.rest;
            || s' == StepLineEnd(cfg, s, c, rest)
            || (s'.up == s.up && s'.fed == s.fed && s'.judged == s.judged && s'.denied == s.denied && s'.eaten == s.eaten + [c]
                && (s'.user == Next(rest) || s'.user == Sending(Key(c), rest)) && s'.kept == s.kept + [InHand(s'.user) != ""])
  {
  }

  lemma TypingKeepsFlow(cfg: Config, s: Session)
    requires FlowInv(cfg, s) && s.user.Typing?
    ensures FlowInv(cfg, StepTyping(cfg, s))
  {
    var c, rest := s.user.c, s.user.rest;
    var s' := StepTyping(cfg, s);
    TypingFrame(cfg, s);
    if s' == StepLineEnd(cfg, s, c, rest) {
      LineEndKeepsFlow(cfg, s, c, rest);
    } else {
      DecideInv(s.up, s.user, s'.user, c, s.fed, s.eaten, s.kept, s.denied);
      LinesMove(cfg, s.up, s.user, s'.user, s.judged);
    }
  }

  lemma SendKeepsFlow(cfg: Config, s: Session)
    requires FlowInv(cfg, s) && (s.user.Sending? || s.user.SendingForced?)
    ensures FlowInv(cfg, StepUser(cfg, s))
  {
    var u := if s.user.Sending? then s.user.u else Secret(true);
    WriteInv(s.up, s.user, u, s.user.rest, s.fed, s.eaten, s.kept, s.denied);
    LinesWrite(cfg, s.up, s.user, u, s.judged);
    LinesMove(cfg, s.up + [u], s.user, Next(s.user.rest), s.judged);
  }

  lemma UserKeepsFlow(cfg: Config, s: Session)
    requires FlowInv(cfg, s)
    ensures FlowInv(cfg, StepUser(cfg, s))
  {
    match s.user
    case Next(_) => NextKeepsFlow(cfg, s);
    case Typing(_, _) => TypingKeepsFlow(cfg, s);
    case Sending(_, _) => SendKeepsFlow(cfg, s);
    case SendingForced(_) => SendKeepsFlow(cfg, s);
    case _ =>
      var pc := StepUser(cfg, s).user;
      MoveInv(s.up, s.user, pc, s.fed, s.eaten, s.kept, s.denied);
      LinesMove(cfg, s.up, s.user, pc, s.judged);
  }

  lemma FlowStep(cfg: Config, s: Session, a: Action)
    requires FlowInv(cfg, s)
    ensures FlowInv(cfg, Apply(cfg, s, a))
  {
    match a
    case UserChunk(p) => if s.user.Idle? { ChunkKeepsFlow(cfg, s, p); }
    case DeviceChunk(_) =>
    case UserStep => UserKeepsFlow(cfg, s);
    case OutStep(recent) => OutKeepsFlow(cfg, s, recent);
  }

  lemma {:induction false} RunKeeps(cfg: Config, s: Session, actions: seq<Action>)
    requires CreditInv(s) && FlowInv(cfg, s)
    ensures CreditInv(Run(cfg, s, actions)) && FlowInv(cfg, Run(cfg, s, actions))
    decreases |actions|
  {
    if actions != [] {
      CreditStep(cfg, s, actions[0]);
      FlowStep(cfg, s, actions[0]);
      RunKeeps(cfg, Apply(cfg, s, actions[0]), actions[1..]);
    }
  }

  // ---------------------------------------------------------------- main results

  /** Under every schedule, secrets sent without the user pressing Enter never outnumber the accepted enable
      lines plus the output chunks that left a "[sudo]" password prompt. */
  lemma EnableSecretCredit(cfg: Config, actions: seq<Action>)
    ensures var s := Run(cfg, START, actions);
            && multiset(s.up)[Secret(false)] <= s.enables + s.sudoPrompts
            && (s.gate.injectEnableOnEnter ==> s.gate.expectEnablePass)
  {
    RunKeeps(cfg, START, actions);
  }

  /** Under every schedule, what reaches the device, less the gate's own secrets and interrupts, is the user's
      bytes at the kept positions, in order and once each, but for one byte that may be on its way; the gate has
      decided the fate of a prefix of the input; every forwarded line end belonged to an ignored line, an
      empty command or an accepted one; and there is one interrupt for each denied line. */
  lemma UpstreamConservation(cfg: Config, actions: seq<Action>)
    ensures var s := Run(cfg, START, actions);
            && |s.kept| == |s.eaten| && s.eaten <= s.fed
            && UserBytes(s.up) + InHand(s.user) == Selected(s.eaten, s.kept)
            && (s.user.Idle? ==>
                  s.eaten == s.fed && UserBytes(s.up) == Selected(s.fed, s.kept) && multiset(s.up)[Interrupt] == s.denied)
            && (forall i | 0 <= i < |s.up| && s.up[i].LineEnd? ::
                  s.up[i].line in s.judged
                  && (s.up[i].line.ignored || s.up[i].line.cmd == "" || cfg.policy.allows(s.up[i].line.cmd)))
  {
    RunKeeps(cfg, START, actions);
    var s := Run(cfg, START, actions);
    forall i | 0 <= i < |s.up| && s.up[i].LineEnd?
      ensures s.up[i].line in s.judged
      ensures s.up[i].line.ignored || s.up[i].line.cmd == "" || cfg.policy.allows(s.up[i].line.cmd)
    {
      assert Justified(cfg, s.judged, s.up[i]);
    }
  }
}
