/**
 Which bytes of the input the gate sends on, in every run, position by position: first with a credential, over
 the gate as each byte met it; then without one, over the input and the judged lines alone.
 */
module GateKeys {
  import opened Text
  import opened PasswordMasker
  import opened GateModel
  import opened GateRuns
  import opened GateLines

  // ---------------------------------------------------------------- the history is what happened

  /** What each action adds to the history of bytes: a dropped chunk adds one moment for each byte, the gate is noted
      when a chunk is taken, when a byte is checked, and when its fate is decided; nothing else is added. */
  lemma HistoryIsFaithful(cfg: Config, s: Session, a: Action)
    ensures var s' := Apply(cfg, s, a);
            var n, g := s.now, s.gate;
            if a.UserChunk? && s.user.Idle? then
              && s'.fed == s.fed + a.p && s'.now == Moment(a.p, g, g, g)
              && (|| (s'.user == Next(a.p) && s'.eaten == s.eaten && s'.log == s.log)
                  || (s'.user == Idle && s'.eaten == s.eaten + a.p && s'.log == s.log + seq(|a.p|, _ => Moment(a.p, g, g, g))))
            else if a.UserStep? && s.user.Next? && s.user.rest != "" then
              && s'.fed == s.fed && s'.now == Moment(n.chunk, n.taken, g, n.gate)
              && (|| (s'.user == Typing(s.user.rest[0], s.user.rest[1..]) && s'.eaten == s.eaten && s'.log == s.log)
                  || (s'.eaten == s.eaten + [s.user.rest[0]] && s'.log == s.log + [Moment(n.chunk, n.taken, g, g)]))
            else if a.UserStep? && s.user.Typing? then
              && s'.fed == s.fed && s'.now == n
              && s'.eaten == s.eaten + [s.user.c] && s'.log == s.log + [Moment(n.chunk, n.taken, n.checked, g)]
            else s'.fed == s.fed && s'.now == n && s'.eaten == s.eaten && s'.log == s.log
  {
    if a.UserStep? && s.user.Typing? {
      TypingHistory(cfg, s);
    }
  }

  lemma TypingHistory(cfg: Config, s: Session)
    requires s.user.Typing?
    ensures var s' := StepTyping(cfg, s);
            && s'.fed == s.fed && s'.now == s.now
            && s'.eaten == s.eaten + [s.user.c]
            && s'.log == s.log + [Moment(s.now.chunk, s.now.taken, s.now.checked, s.gate)]
  {
  }

  /** A key that ends no line is written by the next two steps of its side, whatever happens in between. */
  lemma KeyIsWritten(cfg: Config, s: Session, s1: Session)
    requires s.user.Typing? && s.user.c != '\r' && s.user.c != '\n'
    requires s1.user == Apply(cfg, s, UserStep).user
    ensures Apply(cfg, s1, UserStep).up == s1.up + [Key(s.user.c)] && Apply(cfg, s1, UserStep).user == Next(s.user.rest)
    ensures Apply(cfg, s, UserStep).kept == s.kept + [true]
  {
  }

  // ---------------------------------------------------------------- with or without a credential

  predicate Dropped(cfg: Config, m: Moment) {
    m.taken.execPrivileged && HoldsSecret(cfg, m.chunk)
  }

  predicate EndsOn(cfg: Config, c: char, g: Gate) {
    && !(c == '\n' && g.skipNextLF) && !(g.injectEnableOnEnter && cfg.Credential() != "")
    && (g.ignoreLine || CurrentCommand(g) == "" || cfg.policy.allows(CurrentCommand(g)))
  }

  predicate Passes(cfg: Config, c: char, m: Moment) {
    && !Dropped(cfg, m) && !WaitingForPassword(cfg, m.checked)
    && (c == '\r' || c == '\n' ==> EndsOn(cfg, c, m.gate))
  }

  predicate PassedSo(cfg: Config, eaten: string, kept: seq<bool>, log: seq<Moment>) {
    && |eaten| == |kept| == |log|
    && forall i | 0 <= i < |eaten| :: kept[i] == Passes(cfg, eaten[i], log[i])
  }

  predicate Told(cfg: Config, s: Session) {
    && PassedSo(cfg, s.eaten, s.kept, s.log)
    && (!s.user.Idle? ==> !Dropped(cfg, s.now))
    && (s.user.Typing? ==> !WaitingForPassword(cfg, s.now.checked))
  }

  lemma PassedOneMore(cfg: Config, eaten: string, kept: seq<bool>, log: seq<Moment>, c: char, m: Moment)
    requires PassedSo(cfg, eaten, kept, log)
    ensures PassedSo(cfg, eaten + [c], kept + [Passes(cfg, c, m)], log + [m])
  {
  }

  lemma NonePassed(cfg: Config, eaten: string, kept: seq<bool>, log: seq<Moment>, p: string, m: Moment)
    requires PassedSo(cfg, eaten, kept, log) && Dropped(cfg, m)
    ensures PassedSo(cfg, eaten + p, kept + DropAll(|p|), log + seq(|p|, _ => m))
  {
  }

  lemma NextTold(cfg: Config, s: Session)
    requires Told(cfg, s) && s.user.Next?
    ensures Told(cfg, StepNext(cfg, s))
  {
    if s.user.rest != "" {
      var m := s.now.(checked := s.gate, gate := s.gate);
      PassedOneMore(cfg, s.eaten, s.kept, s.log, s.user.rest[0], m);
    }
  }

  lemma LineEndPasses(cfg: Config, s: Session, c: char, rest: string)
    requires c == '\r' || (c == '\n' && !s.gate.skipNextLF)
    ensures var s' := StepLineEnd(cfg, s, c, rest);
            && s'.now == s.now && s'.eaten == s.eaten + [c] && s'.log == s.log + [s.now.(gate := s.gate)]
            && s'.kept == s.kept + [EndsOn(cfg, c, s.gate)] && !s'.user.Idle? && !s'.user.Typing?
  {
    var g := if c == '\r' then s.gate.(skipNextLF := true) else s.gate;
    assert CurrentCommand(g) == CurrentCommand(s.gate);
  }

  lemma TypingTold(cfg: Config, s: Session)
    requires Told(cfg, s) && s.user.Typing?
    ensures Told(cfg, StepTyping(cfg, s))
  {
    var c := s.user.c;
    PassedOneMore(cfg, s.eaten, s.kept, s.log, c, s.now.(gate := s.gate));
    if c == '\r' || (c == '\n' && !s.gate.skipNextLF) {
      LineEndPasses(cfg, s, c, s.user.rest);
    }
  }

  lemma StepTold(cfg: Config, s: Session, a: Action)
    requires Told(cfg, s)
    ensures Told(cfg, Apply(cfg, s, a))
  {
    match a
    case UserChunk(p) =>
      if s.user.Idle? && s.gate.execPrivileged && HoldsSecret(cfg, p) {
        NonePassed(cfg, s.eaten, s.kept, s.log, p, Moment(p, s.gate, s.gate, s.gate));
      }
    case UserStep =>
      if s.user.Next? {
        NextTold(cfg, s);
      } else if s.user.Typing? {
        TypingTold(cfg, s);
      }
    case _ =>
  }

  lemma {:induction false} RunTold(cfg: Config, s: Session, actions: seq<Action>)
    requires Told(cfg, s)
    ensures Told(cfg, Run(cfg, s, actions))
    decreases |actions|
  {
    if actions != [] {
      StepTold(cfg, s, actions[0]);
      RunTold(cfg, Apply(cfg, s, actions[0]), actions[1..]);
    }
  }

  /** In every run: a byte is kept exactly when its chunk did not come to a privileged prompt with the secret in it, no
      password was awaited when it was checked, and, if it ends a line, it is no line feed to be skipped, no injection
      is due, and the line was ignored, empty, or accepted. */
  lemma KeptExactly(cfg: Config, secret: string, actions: seq<Action>)
    requires secret == if cfg.enableSecret != "" then cfg.enableSecret else cfg.portalPassword
    ensures var s := Run(cfg, START, actions);
            && |s.kept| == |s.eaten| == |s.log|
            && forall i | 0 <= i < |s.eaten| ::
                 var c, m := s.eaten[i], s.log[i];
                 var shown := TrimSpace(AfterPrompt(m.gate.devLine));
                 var cmd := if shown != "" then shown else TrimSpace(m.gate.userTyped);
                 s.kept[i] <==>
                   && !(secret != "" && m.taken.execPrivileged && Contains(m.chunk, secret))
                   && !(secret != "" && m.checked.expectEnablePass && !m.checked.execPrivileged)
                   && (c == '\r' || c == '\n' ==>
                         && !(c == '\n' && m.gate.skipNextLF)
                         && !(secret != "" && m.gate.injectEnableOnEnter)
                         && (m.gate.ignoreLine || cmd == "" || cfg.policy.allows(cmd)))
  {
    RunTold(cfg, START, actions);
  }

  // ---------------------------------------------------------------- the marked bytes

  /** Ascending positions below n: exactly those with the mark. */
  predicate Marked(at: seq<nat>, marks: seq<bool>) {
    && (forall i, j | 0 <= i < j < |at| :: at[i] < at[j])
    && (forall j | 0 <= j < |at| :: at[j] < |marks|)
    && (forall i: nat | i < |marks| :: i in at <==> marks[i])
  }

  lemma MarkedOneMore(at: seq<nat>, marks: seq<bool>, keep: bool)
    requires Marked(at, marks)
    ensures Marked(if keep then at + [|marks|] else at, marks + [keep])
  {
    var more := marks + [keep];
    forall i: nat | i < |more| ensures i in (if keep then at + [|marks|] else at) <==> more[i] {
      if i < |marks| {
        assert i in at + [|marks|] <==> i in at;
      }
    }
  }

  predicate Picks(at: seq<nat>, bytes: string, picked: string) {
    |picked| == |at| && forall j | 0 <= j < |at| :: at[j] < |bytes| && picked[j] == bytes[at[j]]
  }

  lemma PicksOneMore(at: seq<nat>, bytes: string, picked: string, c: char, keep: bool)
    requires Picks(at, bytes, picked)
    ensures Picks(if keep then at + [|bytes|] else at, bytes + [c], picked + if keep then [c] else "")
  {
  }

  lemma SelectedStep(at: seq<nat>, bytes: string, marks: seq<bool>, c: char, keep: bool) returns (at': seq<nat>)
    requires |bytes| == |marks| && Marked(at, marks) && Picks(at, bytes, Selected(bytes, marks))
    ensures Marked(at', marks + [keep]) && Picks(at', bytes + [c], Selected(bytes + [c], marks + [keep]))
  {
    at' := if keep then at + [|bytes|] else at;
    SelectOne(bytes, marks, c, keep);
    MarkedOneMore(at, marks, keep);
    PicksOneMore(at, bytes, Selected(bytes, marks), c, keep);
  }

  lemma {:induction false} SelectedAt(bytes: string, marks: seq<bool>) returns (at: seq<nat>)
    requires |bytes| == |marks|
    ensures Marked(at, marks) && Picks(at, bytes, Selected(bytes, marks))
  {
    if bytes == "" {
      at := [];
    } else {
      var n := |bytes| - 1;
      var bs, ms := bytes[..n], marks[..n];
      at := SelectedAt(bs, ms);
      at := SelectedStep(at, bs, ms, bytes[n], marks[n]);
      assert bytes == bs + [bytes[n]] && marks == ms + [marks[n]];
    }
  }

  /** The selected bytes are those at the marked positions, each once and in order. */
  lemma SelectedMeans(bytes: string, marks: seq<bool>) returns (at: seq<nat>)
    requires |bytes| == |marks|
    ensures |Selected(bytes, marks)| == |at| && forall i, j | 0 <= i < j < |at| :: at[i] < at[j]
    ensures forall j | 0 <= j < |at| :: at[j] < |bytes| && Selected(bytes, marks)[j] == bytes[at[j]]
    ensures forall i: nat | i < |bytes| :: i in at <==> marks[i]
  {
    at := SelectedAt(bytes, marks);
  }

  function ByteOf(u: Upstream): char {
    match u
    case Key(c) => c
    case LineEnd(c, _) => c
    case _ => ' '
  }

  function BytesOf(up: seq<Upstream>): (s: string)
    ensures |s| == |up| && forall i | 0 <= i < |up| :: s[i] == ByteOf(up[i])
  {
    seq(|up|, i requires 0 <= i < |up| => ByteOf(up[i]))
  }

  function KeysOf(up: seq<Upstream>): (m: seq<bool>)
    ensures |m| == |up| && forall i | 0 <= i < |up| :: m[i] == (up[i].Key? || up[i].LineEnd?)
  {
    seq(|up|, i requires 0 <= i < |up| => up[i].Key? || up[i].LineEnd?)
  }

  lemma {:induction false} UserBytesSelected(up: seq<Upstream>)
    ensures UserBytes(up) == Selected(BytesOf(up), KeysOf(up))
  {
    if up != [] {
      var n := |up| - 1;
      UserBytesSelected(up[..n]);
      assert BytesOf(up)[..n] == BytesOf(up[..n]) && KeysOf(up)[..n] == KeysOf(up[..n]);
    }
  }

  /** The user's bytes on the wire are those written as keys and line ends, each once and in order. */
  lemma UserBytesMeans(up: seq<Upstream>) returns (at: seq<nat>)
    ensures |UserBytes(up)| == |at| && forall i, j | 0 <= i < j < |at| :: at[i] < at[j]
    ensures forall j | 0 <= j < |at| :: at[j] < |up| && (up[at[j]].Key? || up[at[j]].LineEnd?) && UserBytes(up)[j] == up[at[j]].c
    ensures forall i: nat | i < |up| :: i in at <==> up[i].Key? || up[i].LineEnd?
  {
    UserBytesSelected(up);
    at := SelectedMeans(BytesOf(up), KeysOf(up));
    forall j | 0 <= j < |at| ensures at[j] in at {
    }
  }

  // ---------------------------------------------------------------- without a credential

  /** A carriage return is pending exactly when there is one with no line feed behind it. */
  lemma {:induction false} PendingMeans(s: string)
    ensures LfPending(s) <==> exists j | 0 <= j < |s| :: s[j] == '\r' && forall k | j < k < |s| :: s[k] != '\n'
    decreases |s|
  {
    if s != "" {
      var n := |s| - 1;
      var init := s[..n];
      PendingMeans(init);
      if LfPending(s) && s[n] != '\r' {
        var j :| 0 <= j < n && init[j] == '\r' && forall k | j < k < n :: init[k] != '\n';
        assert s[j] == '\r' && forall k | j < k < n :: s[k] == init[k];
      }
      if j :| 0 <= j < |s| && s[j] == '\r' && forall k | j < k < |s| :: s[k] != '\n' {
        if j < n {
          assert init[j] == '\r' && forall k | j < k < n :: init[k] == s[k];
        }
      }
    }
  }

  predicate Entered(policy: Policy, line: Line) {
    line.ignored || line.cmd == "" || policy.allows(line.cmd)
  }

  /** Byte i passes: it ends no line, or it is an Enter whose line was ignored, empty or accepted. */
  predicate PassesAt(policy: Policy, eaten: string, judged: seq<Line>, i: nat)
    requires i < |eaten|
  {
    || (eaten[i] != '\r' && eaten[i] != '\n')
    || (Enters(eaten[..i + 1]) && |TypedLines(eaten[..i])| < |judged| && Entered(policy, judged[|TypedLines(eaten[..i])|]))
  }

  function Refusals(policy: Policy, judged: seq<Line>): set<int> {
    set k | 0 <= k < |judged| && !Entered(policy, judged[k])
  }

  predicate SentSo(policy: Policy, eaten: string, kept: seq<bool>, judged: seq<Line>) {
    && |eaten| == |kept| && |judged| == |TypedLines(eaten)|
    && forall i | 0 <= i < |eaten| :: kept[i] == PassesAt(policy, eaten, judged, i)
  }

  predicate Plain(cfg: Config, s: Session) {
    && SentSo(cfg.policy, s.eaten, s.kept, s.judged) && s.denied == |Refusals(cfg.policy, s.judged)|
    && (forall i | 0 <= i < |s.up| :: !s.up[i].Secret?)
    && (s.user.Sending? ==> !s.user.u.Secret?)
  }

  lemma {:induction false} FewerLines(s: string, i: nat)
    requires i <= |s|
    ensures |TypedLines(s[..i])| <= |TypedLines(s)|
  {
    if i < |s| {
      var init := s[..|s| - 1];
      assert init[..i] == s[..i];
      FewerLines(init, i);
    } else {
      assert s[..i] == s;
    }
  }

  lemma PassesBefore(policy: Policy, eaten: string, judged: seq<Line>, c: char, judged': seq<Line>, i: nat)
    requires i < |eaten| && |judged| == |TypedLines(eaten)| && judged <= judged'
    ensures PassesAt(policy, eaten + [c], judged', i) == PassesAt(policy, eaten, judged, i)
  {
    assert (eaten + [c])[..i] == eaten[..i] && (eaten + [c])[..i + 1] == eaten[..i + 1];
    FewerLines(eaten, i + 1);
    if Enters(eaten[..i + 1]) {
      assert eaten[..i + 1] == eaten[..i] + [eaten[i]];
      OneMoreLine(eaten[..i], eaten[i]);
    }
  }

  /** One more byte, and perhaps one more line, leaves the fate of the earlier ones as it is. */
  lemma AllPassBefore(policy: Policy, eaten: string, judged: seq<Line>, c: char, judged': seq<Line>)
    requires |judged| == |TypedLines(eaten)| && judged <= judged'
    ensures forall i | 0 <= i < |eaten| :: PassesAt(policy, eaten + [c], judged', i) == PassesAt(policy, eaten, judged, i)
  {
    forall i | 0 <= i < |eaten| ensures PassesAt(policy, eaten + [c], judged', i) == PassesAt(policy, eaten, judged, i) {
      PassesBefore(policy, eaten, judged, c, judged', i);
    }
  }

  lemma SentEnter(policy: Policy, eaten: string, kept: seq<bool>, judged: seq<Line>, c: char, line: Line)
    requires SentSo(policy, eaten, kept, judged) && Enters(eaten + [c])
    ensures SentSo(policy, eaten + [c], kept + [Entered(policy, line)], judged + [line])
  {
    OneMoreLine(eaten, c);
    LastOf(eaten, c);
    assert (eaten + [c])[..|eaten|] == eaten && (eaten + [c])[..|eaten| + 1] == eaten + [c];
    AllPassBefore(policy, eaten, judged, c, judged + [line]);
  }

  lemma SentKey(policy: Policy, eaten: string, kept: seq<bool>, judged: seq<Line>, c: char)
    requires SentSo(policy, eaten, kept, judged) && !Enters(eaten + [c])
    ensures SentSo(policy, eaten + [c], kept + [c != '\r' && c != '\n'], judged)
  {
    OneMoreLine(eaten, c);
    assert (eaten + [c])[..|eaten| + 1] == eaten + [c];
    AllPassBefore(policy, eaten, judged, c, judged);
  }

  lemma RefusedOneMore(policy: Policy, judged: seq<Line>, line: Line)
    ensures |Refusals(policy, judged + [line])| == |Refusals(policy, judged)| + if Entered(policy, line) then 0 else 1
  {
    var more := judged + [line];
    assert Refusals(policy, more) == Refusals(policy, judged) + if Entered(policy, line) then {} else {|judged|};
  }

  lemma LineEndPlain(cfg: Config, s: Session, c: char, rest: string)
    requires cfg.Credential() == "" && LinesFollow(s) && Plain(cfg, s) && s.user == Typing(c, rest) && Enters(s.eaten + [c])
    ensures Plain(cfg, StepLineEnd(cfg, s, c, rest))
  {
    var g := if c == '\r' then s.gate.(skipNextLF := true) else s.gate;
    var (_, line, verdict) := JudgeLine(cfg, g);
    NoCredential(cfg, g, "");
    assert verdict.Forward? <==> Entered(cfg.policy, line);
    SentEnter(cfg.policy, s.eaten, s.kept, s.judged, c, line);
    RefusedOneMore(cfg.policy, s.judged, line);
  }

  lemma TypingPlain(cfg: Config, s: Session)
    requires cfg.Credential() == "" && LinesFollow(s) && Plain(cfg, s) && s.user.Typing?
    ensures Plain(cfg, StepTyping(cfg, s))
  {
    var c := s.user.c;
    OneMoreEnter(s.eaten, c);
    if Enters(s.eaten + [c]) {
      LineEndPlain(cfg, s, c, s.user.rest);
    } else {
      SentKey(cfg.policy, s.eaten, s.kept, s.judged, c);
    }
  }

  lemma UserPlain(cfg: Config, s: Session)
    requires cfg.Credential() == "" && LinesFollow(s) && Plain(cfg, s)
    ensures Plain(cfg, StepUser(cfg, s))
  {
    NoCredential(cfg, s.gate, "");
    match s.user
    case Typing(_, _) => TypingPlain(cfg, s);
    case Next(_) =>
    case _ =>
  }

  lemma StepPlain(cfg: Config, s: Session, a: Action)
    requires cfg.Credential() == "" && LinesFollow(s) && Plain(cfg, s)
    ensures Plain(cfg, Apply(cfg, s, a))
  {
    match a
    case UserChunk(p) => NoCredential(cfg, s.gate, p);
    case UserStep => UserPlain(cfg, s);
    case _ =>
  }

  lemma {:induction false} RunPlain(cfg: Config, s: Session, actions: seq<Action>)
    requires cfg.Credential() == "" && LinesFollow(s) && Plain(cfg, s)
    ensures Plain(cfg, Run(cfg, s, actions)) && LinesFollow(Run(cfg, s, actions))
    decreases |actions|
  {
    if actions != [] {
      StepPlain(cfg, s, actions[0]);
      StepFollows(cfg, s, actions[0]);
      RunPlain(cfg, Apply(cfg, s, actions[0]), actions[1..]);
    }
  }

  lemma RefusalsMeans(policy: Policy, judged: seq<Line>)
    ensures Refusals(policy, judged) ==
            set k | 0 <= k < |judged| && !(judged[k].ignored || judged[k].cmd == "" || policy.allows(judged[k].cmd))
  {
  }

  lemma IdlePlain(cfg: Config, actions: seq<Action>)
    requires cfg.Credential() == ""
    ensures var s := Run(cfg, START, actions);
            s.user.Idle? ==>
              && |s.kept| == |s.fed| && UserBytes(s.up) == Selected(s.fed, s.kept)
              && SentSo(cfg.policy, s.fed, s.kept, s.judged)
              && Interrupts(s.up) == |Refusals(cfg.policy, s.judged)|
              && forall i | 0 <= i < |s.up| :: !s.up[i].Secret?
  {
    RunPlain(cfg, START, actions);
    UpstreamConservation(cfg, actions);
  }

  /** Without a credential, once the input is used up: the device has received the input less the swallowed line feeds
      and the line ends of denied lines, one interrupt for each of these lines, and nothing else. */
  lemma DeviceReceives(cfg: Config, actions: seq<Action>) returns (at: seq<nat>)
    requires cfg.enableSecret == "" && cfg.portalPassword == ""
    ensures var s := Run(cfg, START, actions);
            s.user.Idle? ==>
              && |UserBytes(s.up)| == |at| && (forall i, j | 0 <= i < j < |at| :: at[i] < at[j])
              && (forall j | 0 <= j < |at| :: at[j] < |s.fed| && UserBytes(s.up)[j] == s.fed[at[j]])
              && |s.judged| == |TypedLines(s.fed)|
              && (forall i: nat | i < |s.fed| ::
                    i in at <==>
                    || (s.fed[i] != '\r' && s.fed[i] != '\n')
                    || (&& Enters(s.fed[..i + 1]) && |TypedLines(s.fed[..i])| < |s.judged|
                        && var line := s.judged[|TypedLines(s.fed[..i])|];
                           line.ignored || line.cmd == "" || cfg.policy.allows(line.cmd)))
              && multiset(s.up)[Interrupt] ==
                   |set k | 0 <= k < |s.judged|
                            && !(s.judged[k].ignored || s.judged[k].cmd == "" || cfg.policy.allows(s.judged[k].cmd))|
              && forall i | 0 <= i < |s.up| :: !s.up[i].Secret?
  {
    IdlePlain(cfg, actions);
    var s := Run(cfg, START, actions);
    at := [];
    if s.user.Idle? {
      at := SelectedMeans(s.fed, s.kept);
      RefusalsMeans(cfg.policy, s.judged);
    }
  }
}
