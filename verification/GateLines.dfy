/**
 Which text a line end is judged on, when no credential is configured, in every run: what stands on the screen
 after the prompt, and the net typed text when nothing does.  So it is the net typed text while the device is
 silent, and once the device has echoed it.
 */
module GateLines {
  import opened Text
  import opened PasswordMasker
  import opened GateModel
  import opened GateRuns

  // ---------------------------------------------------------------- what the user typed

  /** A carriage return is still waiting to swallow the next line feed, whatever was typed since. */
  predicate LfPending(s: string) {
    s != "" && (s[|s| - 1] == '\r' || (s[|s| - 1] != '\n' && LfPending(s[..|s| - 1])))
  }

  /** The last byte is an Enter: a carriage return, or a line feed that no carriage return swallows. */
  predicate Enters(s: string) {
    s != "" && (s[|s| - 1] == '\r' || (s[|s| - 1] == '\n' && !LfPending(s[..|s| - 1])))
  }

  /** One key's effect on a line being typed: backspaces erase, printables append, the rest do neither. */
  function Edit(t: string, c: char): string {
    if Erases(c) then DropLast(t) else if Printable(c) then t + [c] else t
  }

  /** The net text typed since the last Enter. */
  function Net(s: string): string {
    if s == "" || Enters(s) then "" else Edit(Net(s[..|s| - 1]), s[|s| - 1])
  }

  /** One line for each Enter: the net text typed before it, trimmed. */
  function TypedLines(s: string): seq<Line> {
    if s == "" then []
    else
      var init := s[..|s| - 1];
      TypedLines(init) + if Enters(s) then [Line(false, TrimSpace(Net(init)))] else []
  }

  lemma LastOf(s: string, c: char)
    ensures (s + [c])[..|s + [c]| - 1] == s && (s + [c])[|s + [c]| - 1] == c
  {
  }

  lemma OneMoreEnter(s: string, c: char)
    ensures LfPending(s + [c]) <==> c == '\r' || (c != '\n' && LfPending(s))
    ensures Enters(s + [c]) <==> c == '\r' || (c == '\n' && !LfPending(s))
  {
    LastOf(s, c);
  }

  lemma OneMoreNet(s: string, c: char)
    ensures Net(s + [c]) == if Enters(s + [c]) then "" else Edit(Net(s), c)
  {
    LastOf(s, c);
  }

  lemma OneMoreLine(s: string, c: char)
    ensures TypedLines(s + [c]) == TypedLines(s) + if Enters(s + [c]) then [Line(false, TrimSpace(Net(s)))] else []
  {
    LastOf(s, c);
  }

  lemma OneMore(s: string, c: char)
    ensures LfPending(s + [c]) <==> c == '\r' || (c != '\n' && LfPending(s))
    ensures Enters(s + [c]) <==> c == '\r' || (c == '\n' && !LfPending(s))
    ensures Net(s + [c]) == if Enters(s + [c]) then "" else Edit(Net(s), c)
    ensures TypedLines(s + [c]) == TypedLines(s) + if Enters(s + [c]) then [Line(false, TrimSpace(Net(s)))] else []
  {
    OneMoreEnter(s, c);
    OneMoreNet(s, c);
    OneMoreLine(s, c);
  }

  // ---------------------------------------------------------------- carriage returns and line feeds

  /** The last byte is an Enter when each carriage return swallows a line feed right behind it, and no other. */
  predicate PairedEnter(s: string) {
    s != "" && (s[|s| - 1] == '\r' || (s[|s| - 1] == '\n' && !(|s| >= 2 && s[|s| - 2] == '\r')))
  }

  lemma PendingAfterReturn(s: string)
    requires s != "" && s[|s| - 1] == '\r'
    ensures LfPending(s)
  {
  }

  /** The gate's line ends are those of CR LF pairing exactly when no line feed has an earlier carriage return
      pending that is not right before it. */
  lemma PairingExactly(s: string)
    ensures (forall n | 0 <= n <= |s| :: Enters(s[..n]) <==> PairedEnter(s[..n]))
            <==> forall i | 0 <= i < |s| && s[i] == '\n' && LfPending(s[..i]) :: s[i - 1] == '\r'
  {
    forall i | 0 <= i < |s|
      ensures (Enters(s[..i + 1]) <==> PairedEnter(s[..i + 1])) <==> (s[i] == '\n' && LfPending(s[..i]) ==> s[i - 1] == '\r')
    {
      var t := s[..i + 1];
      assert t[..|t| - 1] == s[..i] && t[|t| - 1] == s[i];
      if i > 0 {
        assert t[|t| - 2] == s[i - 1];
        if s[i - 1] == '\r' {
          PendingAfterReturn(s[..i]);
        }
      }
    }
    if forall i | 0 <= i < |s| && s[i] == '\n' && LfPending(s[..i]) :: s[i - 1] == '\r' {
      forall n | 0 <= n <= |s| ensures Enters(s[..n]) <==> PairedEnter(s[..n]) {
        if n > 0 {
          assert s[..(n - 1) + 1] == s[..n];
        }
      }
    } else {
      var i :| 0 <= i < |s| && s[i] == '\n' && LfPending(s[..i]) && s[i - 1] != '\r';
      assert Enters(s[..i + 1]) != PairedEnter(s[..i + 1]);
    }
  }

  /** The pending flag outlives typing: after CR and a key, LF is still swallowed. */
  lemma SwallowedLineFeed()
    ensures !Enters("\ra\n") && PairedEnter("\ra\n") && Net("\ra\n") == "a" && |TypedLines("\ra\n")| == 1
  {
    var one, two := "\r", "\ra";
    assert "" + ['\r'] == one && one + ['a'] == two && two + ['\n'] == "\ra\n";
    OneMore("", '\r');
    assert LfPending(one) && Enters(one) && Net(one) == "" && |TypedLines(one)| == 1;
    OneMore(one, 'a');
    assert LfPending(two) && !Enters(two) && Net(two) == "" + ['a'] && |TypedLines(two)| == 1;
    OneMore(two, '\n');
    LineFeedEditsNothing(Net(two));
    assert "\ra\n"[1] == 'a' && "\ra\n"[2] == '\n';
  }

  // ---------------------------------------------------------------- what a line end is judged on

  /** One of these screen lines asked for a password. */
  predicate Asked(screens: seq<string>) {
    exists i | 0 <= i < |screens| :: PasswordPrompt(screens[i])
  }

  function OnScreen(v: View): string {
    TrimSpace(AfterPrompt(v.screen))
  }

  /** The line as judged: ignored after a password prompt; what the screen shows after its prompt, or else what was typed. */
  function Seen(v: View, typed: string): Line {
    Line(Asked(v.screens), if OnScreen(v) == "" then typed else OnScreen(v))
  }

  predicate Idling(s: Session) {
    s.out.Quiet? && !s.user.Forcing? && !s.user.SendingForced? && !s.user.Enabling? && !s.gate.injectEnableOnEnter
  }

  predicate Mirrors(s: Session) {
    && s.gate.devLine == Displayed(s.shown) && s.gate.ignoreLine == Asked(s.screens)
    && s.gate.skipNextLF == LfPending(s.eaten) && s.gate.userTyped == Net(s.eaten)
    && (s.user.Denying? ==> s.gate.userTyped == "")
  }

  predicate JudgedSo(judged: seq<Line>, views: seq<View>, typed: seq<Line>) {
    && |judged| == |views| == |typed|
    && forall i | 0 <= i < |judged| :: judged[i] == Seen(views[i], typed[i].cmd)
  }

  predicate LinesFollow(s: Session) {
    Idling(s) && Mirrors(s) && JudgedSo(s.judged, s.views, TypedLines(s.eaten))
  }

  lemma NoCredential(cfg: Config, g: Gate, p: string)
    requires cfg.Credential() == "" && !g.injectEnableOnEnter
    ensures !WaitingForPassword(cfg, g) && !HoldsSecret(cfg, p)
    ensures var (g', line, verdict) := JudgeLine(cfg, g);
            && g' == g.(ignoreLine := false, userTyped := "") && !verdict.Enable? && !verdict.Swallow?
            && line == Line(g.ignoreLine, CurrentCommand(g))
  {
  }

  // ---------------------------------------------------------------- the device writes

  lemma DisplayOneMore(stream: string, b: char)
    ensures Displayed(stream + [b]) == if b == '\r' || b == '\n' then "" else Mirrored(Displayed(stream), b)
  {
    assert (stream + [b])[..|stream|] == stream;
  }

  /** Output touches the screen line and the password flow only, and opens nothing. */
  predicate OnlyScreen(g: Gate, g': Gate) {
    && g'.userTyped == g.userTyped && g'.ignoreLine == g.ignoreLine && g'.skipNextLF == g.skipNextLF
    && (g'.injectEnableOnEnter ==> g.injectEnableOnEnter)
  }

  lemma NotePromptKeeps(g: Gate)
    ensures OnlyScreen(g, NotePrompt(g)) && NotePrompt(g).devLine == g.devLine
  {
  }

  lemma NoteByteDisplays(g: Gate, stream: string, b: char)
    requires g.devLine == Displayed(stream)
    ensures NoteByte(g, b).devLine == Displayed(stream + [b]) && OnlyScreen(g, NoteByte(g, b))
  {
    DisplayOneMore(stream, b);
    NotePromptKeeps(g);
  }

  lemma {:induction false} NoteBytesDisplay(g: Gate, stream: string, p: string)
    requires g.devLine == Displayed(stream)
    ensures NoteBytes(g, p).devLine == Displayed(stream + p) && OnlyScreen(g, NoteBytes(g, p))
    decreases |p|
  {
    if p == "" {
      assert stream + p == stream;
    } else {
      NoteByteDisplays(g, stream, p[0]);
      NoteBytesDisplay(NoteByte(g, p[0]), stream + [p[0]], p[1..]);
      assert stream + [p[0]] + p[1..] == stream + p;
    }
  }

  lemma ChunkEndAsks(cfg: Config, g: Gate)
    requires cfg.Credential() == "" && !g.injectEnableOnEnter
    ensures var (g', inject) := NoteChunkEnd(cfg, g);
            && !inject && !g'.injectEnableOnEnter
            && g'.devLine == g.devLine && g'.userTyped == g.userTyped && g'.skipNextLF == g.skipNextLF
            && g'.ignoreLine == (g.ignoreLine || PasswordPrompt(g.devLine))
  {
    NotePromptKeeps(g);
  }

  lemma AskedOneMore(screens: seq<string>, line: string)
    ensures Asked(screens + [line]) <==> Asked(screens) || PasswordPrompt(line)
  {
    var all := screens + [line];
    assert all[|screens|] == line;
    if i :| 0 <= i < |screens| && PasswordPrompt(screens[i]) {
      assert all[i] == screens[i];
    }
  }

  lemma ChunkFollows(cfg: Config, s: Session, p: string)
    requires cfg.Credential() == "" && LinesFollow(s)
    ensures LinesFollow(NoteChunk(cfg, s, p))
  {
    NoteBytesDisplay(s.gate, s.shown, p);
    ChunkEndAsks(cfg, NoteBytes(s.gate, p));
    AskedOneMore(s.screens, Displayed(s.shown + p));
  }

  // ---------------------------------------------------------------- the user types

  lemma JudgedOneMore(judged: seq<Line>, views: seq<View>, typed: seq<Line>, v: View, t: string)
    requires JudgedSo(judged, views, typed)
    ensures JudgedSo(judged + [Seen(v, t)], views + [v], typed + [Line(false, t)])
  {
  }

  /** A line end without a credential: the line is recorded, and the mirrors of what was typed start over. */
  lemma LineEndParts(cfg: Config, s: Session, c: char, rest: string)
    requires cfg.Credential() == "" && !s.gate.injectEnableOnEnter
    ensures var g := if c == '\r' then s.gate.(skipNextLF := true) else s.gate;
            var s' := StepLineEnd(cfg, s, c, rest);
            && s'.gate == g.(ignoreLine := false, userTyped := "")
            && s'.judged == s.judged + [Line(g.ignoreLine, CurrentCommand(g))]
            && s'.views == s.views + [View(Displayed(s.shown), s.screens)]
            && s'.eaten == s.eaten + [c] && s'.screens == [] && s'.shown == s.shown && s'.out == s.out
            && (s'.user.Sending? || s'.user.Denying?)
  {
  }

  lemma LineEndMirrors(s: Session, s': Session, c: char)
    requires Mirrors(s) && Enters(s.eaten + [c]) && s'.eaten == s.eaten + [c] && s'.screens == [] && s'.shown == s.shown
    requires s'.gate == (if c == '\r' then s.gate.(skipNextLF := true) else s.gate).(ignoreLine := false, userTyped := "")
    ensures Mirrors(s')
  {
    OneMoreEnter(s.eaten, c);
    OneMoreNet(s.eaten, c);
  }

  lemma LineEndFollows(cfg: Config, s: Session, c: char, rest: string)
    requires cfg.Credential() == "" && LinesFollow(s) && s.user == Typing(c, rest) && Enters(s.eaten + [c])
    ensures LinesFollow(StepLineEnd(cfg, s, c, rest))
  {
    var v, t := View(Displayed(s.shown), s.screens), TrimSpace(Net(s.eaten));
    LineEndParts(cfg, s, c, rest);
    LineEndMirrors(s, StepLineEnd(cfg, s, c, rest), c);
    OneMoreLine(s.eaten, c);
    assert CurrentCommand(if c == '\r' then s.gate.(skipNextLF := true) else s.gate) == Seen(v, t).cmd;
    JudgedOneMore(s.judged, s.views, TypedLines(s.eaten), v, t);
  }

  lemma LineFeedEditsNothing(t: string)
    ensures Edit(t, '\n') == t
  {
  }

  lemma KeyFollows(cfg: Config, s: Session, c: char, rest: string)
    requires LinesFollow(s) && s.user == Typing(c, rest) && !Enters(s.eaten + [c])
    ensures LinesFollow(StepTyping(cfg, s))
  {
    OneMore(s.eaten, c);
    if c != '\n' {
      assert Typed(s.gate, c) == s.gate.(userTyped := Edit(s.gate.userTyped, c));
    } else {
      LineFeedEditsNothing(s.gate.userTyped);
    }
  }

  lemma TypingFollows(cfg: Config, s: Session)
    requires cfg.Credential() == "" && LinesFollow(s) && s.user.Typing?
    ensures LinesFollow(StepTyping(cfg, s))
  {
    var c, rest := s.user.c, s.user.rest;
    OneMore(s.eaten, c);
    if Enters(s.eaten + [c]) {
      LineEndFollows(cfg, s, c, rest);
    } else {
      KeyFollows(cfg, s, c, rest);
    }
  }

  lemma UserFollows(cfg: Config, s: Session)
    requires cfg.Credential() == "" && LinesFollow(s)
    ensures LinesFollow(StepUser(cfg, s))
  {
    NoCredential(cfg, s.gate, "");
    match s.user
    case Typing(_, _) => TypingFollows(cfg, s);
    case Denying(_) => assert !Asked([]);
    case _ =>
  }

  lemma StepFollows(cfg: Config, s: Session, a: Action)
    requires cfg.Credential() == "" && LinesFollow(s)
    ensures LinesFollow(Apply(cfg, s, a))
  {
    match a
    case UserChunk(p) => NoCredential(cfg, s.gate, p);
    case DeviceChunk(p) => ChunkFollows(cfg, s, p);
    case UserStep => UserFollows(cfg, s);
    case OutStep(_) =>
  }

  lemma {:induction false} RunFollows(cfg: Config, s: Session, actions: seq<Action>)
    requires cfg.Credential() == "" && LinesFollow(s)
    ensures LinesFollow(Run(cfg, s, actions))
    decreases |actions|
  {
    if actions != [] {
      StepFollows(cfg, s, actions[0]);
      RunFollows(cfg, Apply(cfg, s, actions[0]), actions[1..]);
    }
  }

  // ---------------------------------------------------------------- main results

  /** In every run without a credential, one line is judged for each Enter, and it is the net typed text exactly
      when no chunk since the Enter before left a password prompt on the screen and the screen shows, after its
      prompt, that text or nothing. */
  lemma JudgedOnTypedTextExactly(cfg: Config, actions: seq<Action>)
    requires cfg.Credential() == ""
    ensures var s := Run(cfg, START, actions);
            var typed := TypedLines(s.eaten);
            && s.eaten <= s.fed && (s.user.Idle? ==> s.eaten == s.fed)
            && |s.judged| == |s.views| == |typed|
            && forall i | 0 <= i < |typed| ::
                 s.judged[i] == typed[i] <==>
                   !Asked(s.views[i].screens) && (OnScreen(s.views[i]) == "" || OnScreen(s.views[i]) == typed[i].cmd)
  {
    RunFollows(cfg, START, actions);
    UpstreamConservation(cfg, actions);
    var s := Run(cfg, START, actions);
    forall i | 0 <= i < |TypedLines(s.eaten)| ensures !TypedLines(s.eaten)[i].ignored {
      TypedAreNotIgnored(s.eaten, i);
    }
  }

  lemma {:induction false} TypedAreNotIgnored(s: string, i: nat)
    requires i < |TypedLines(s)|
    ensures !TypedLines(s)[i].ignored
  {
    var init := s[..|s| - 1];
    if i < |TypedLines(init)| {
      TypedAreNotIgnored(init, i);
    }
  }

  /** Whatever the device does: a line feed is judged exactly when no carriage return before it is still pending. */
  lemma LineFeedJudgedExactly(cfg: Config, actions: seq<Action>)
    requires cfg.Credential() == ""
    ensures var s := Run(cfg, START, actions);
            s.user.Typing? && s.user.c == '\n' ==>
              (|Apply(cfg, s, UserStep).judged| == |s.judged| + 1 <==> !LfPending(s.eaten))
  {
    RunFollows(cfg, START, actions);
  }

  // ---------------------------------------------------------------- a silent device

  predicate Silent(a: Action) {
    !a.DeviceChunk?
  }

  predicate Blank(s: Session) {
    s.shown == "" && s.screens == [] && forall i | 0 <= i < |s.views| :: s.views[i] == View("", [])
  }

  lemma SilentStep(cfg: Config, s: Session, a: Action)
    requires Blank(s) && Silent(a)
    ensures Blank(Apply(cfg, s, a))
  {
  }

  lemma {:induction false} SilentRun(cfg: Config, s: Session, actions: seq<Action>)
    requires Blank(s) && forall i | 0 <= i < |actions| :: Silent(actions[i])
    ensures Blank(Run(cfg, s, actions))
    decreases |actions|
  {
    if actions != [] {
      SilentStep(cfg, s, actions[0]);
      SilentRun(cfg, Apply(cfg, s, actions[0]), actions[1..]);
    }
  }

  /** A silent device: for every input and chunking, the lines judged so far are exactly the net typed texts of
      the lines entered so far. */
  lemma SilentDeviceJudgesTypedText(cfg: Config, actions: seq<Action>)
    requires cfg.Credential() == "" && forall i | 0 <= i < |actions| :: Silent(actions[i])
    ensures var s := Run(cfg, START, actions);
            && s.judged == TypedLines(s.eaten) && s.eaten <= s.fed
            && (s.user.Idle? ==> s.judged == TypedLines(s.fed))
  {
    JudgedOnTypedTextExactly(cfg, actions);
    SilentRun(cfg, START, actions);
  }

  // ---------------------------------------------------------------- a device that echoes

  predicate NoMark(t: string) {
    forall i | 0 <= i < |t| :: !PromptMark(t[i])
  }

  predicate Blanks(t: string) {
    forall i | 0 <= i < |t| :: t[i] == ' '
  }

  /** A prompt: something that ends in '#', '>' or '$', then perhaps blanks. */
  predicate IsPrompt(p: string, blanks: nat) {
    blanks < |p| && PromptMark(p[|p| - blanks - 1]) && Blanks(p[|p| - blanks..])
  }

  lemma {:induction false} AfterLastMark(prompt: string, t: string)
    requires prompt != "" && PromptMark(prompt[|prompt| - 1]) && NoMark(t)
    ensures AfterPrompt(prompt + t) == t
  {
    if t == "" {
      assert prompt + t == prompt;
    } else {
      var init := t[..|t| - 1];
      AfterLastMark(prompt, init);
      assert (prompt + t)[..|prompt + t| - 1] == prompt + init;
      assert (prompt + t)[|prompt + t| - 1] == t[|t| - 1];
    }
  }

  lemma {:induction false} TrimBlanks(b: string, t: string)
    requires Blanks(b)
    ensures TrimSpace(b + t) == TrimSpace(t)
  {
    if b == "" {
      assert b + t == t;
    } else {
      assert (b + t)[0] == ' ' && (b + t)[1..] == b[1..] + t;
      TrimBlanks(b[1..], t);
    }
  }

  /** A screen that shows a prompt, blanks and a text without marks shows that text. */
  lemma ScreenShowsText(v: View, prompt: string, blanks: nat, t: string)
    requires IsPrompt(prompt, blanks) && NoMark(t) && v.screen == prompt + t
    ensures OnScreen(v) == TrimSpace(t)
  {
    var cut := |prompt| - blanks;
    var b := prompt[cut..];
    assert prompt[..cut] + (b + t) == v.screen;
    assert NoMark(b + t);
    AfterLastMark(prompt[..cut], b + t);
    TrimBlanks(b, t);
  }

  /** In every run without a credential, the line entered when the screen shows a prompt followed by the net typed
      text, and no chunk since the Enter before left a password prompt, is judged on that text. */
  lemma EchoedLineJudgesTypedText(cfg: Config, actions: seq<Action>, prompt: string, blanks: nat)
    requires cfg.Credential() == "" && IsPrompt(prompt, blanks)
    ensures var s := Run(cfg, START, actions);
            s.user.Typing? && Enters(s.eaten + [s.user.c]) && !Asked(s.screens)
            && NoMark(Net(s.eaten)) && Displayed(s.shown) == prompt + Net(s.eaten) ==>
              Apply(cfg, s, UserStep).judged == s.judged + [Line(false, TrimSpace(Net(s.eaten)))]
  {
    var s := Run(cfg, START, actions);
    if s.user.Typing? && Enters(s.eaten + [s.user.c]) && !Asked(s.screens)
       && NoMark(Net(s.eaten)) && Displayed(s.shown) == prompt + Net(s.eaten)
    {
      RunFollows(cfg, START, actions);
      ScreenShowsText(View(Displayed(s.shown), s.screens), prompt, blanks, Net(s.eaten));
      EnterJudges(cfg, s);
    }
  }

  lemma EnterJudges(cfg: Config, s: Session)
    requires cfg.Credential() == "" && LinesFollow(s) && s.user.Typing? && Enters(s.eaten + [s.user.c])
    ensures Apply(cfg, s, UserStep).judged ==
            s.judged + [Seen(View(Displayed(s.shown), s.screens), TrimSpace(Net(s.eaten)))]
  {
    var c := s.user.c;
    OneMore(s.eaten, c);
    NoCredential(cfg, if c == '\r' then s.gate.(skipNextLF := true) else s.gate, "");
  }

  // ---------------------------------------------------------------- a plain echo

  predicate FreeOfWords(line: string) {
    forall k | 0 <= k < |PROMPTS| :: !Contains(Lower(line), PROMPTS[k])
  }

  lemma {:induction false} TrimLeftIsTail(s: string)
    ensures TrimLeft(s) == s[|s| - |TrimLeft(s)|..]
  {
    if s != "" && IsSpace(s[0]) {
      TrimLeftIsTail(s[1..]);
    }
  }

  /** Trimming only removes ends, so it brings in no new occurrence. */
  lemma TrimmedContains(s: string, x: string)
    ensures Contains(TrimSpace(s), x) ==> Contains(s, x)
  {
    var l := TrimLeft(s);
    TrimLeftIsTail(s);
    if k: nat :| k <= |TrimSpace(s)| && OccursAt(TrimSpace(s), x, k) {
      assert TrimSpace(s)[k..k + |x|] == l[k..k + |x|];
      var from := |s| - |l| + k;
      assert s[from..from + |x|] == l[k..k + |x|];
      assert OccursAt(s, x, from);
    }
  }

  /** A word without marks that occurs across a mark occurs on one side of it. */
  lemma OneSideOfMark(a: string, b: string, x: string)
    requires a != "" && PromptMark(a[|a| - 1]) && NoMark(x) && x != "" && Contains(a + b, x)
    ensures Contains(a, x) || Contains(b, x)
  {
    var k: nat :| k <= |a + b| && OccursAt(a + b, x, k);
    assert forall i | 0 <= i < |x| :: x[i] == (a + b)[k + i];
    assert (a + b)[|a| - 1] == a[|a| - 1];
    if k + |x| <= |a| {
      assert a[k..k + |x|] == (a + b)[k..k + |x|];
      assert OccursAt(a, x, k);
    } else if k >= |a| {
      assert b[k - |a|..k - |a| + |x|] == (a + b)[k..k + |x|];
      assert OccursAt(b, x, k - |a|);
    }
  }

  lemma PrefixContains(a: string, t: string, x: string)
    requires a <= t && Contains(a, x)
    ensures Contains(t, x)
  {
    var k: nat :| k <= |a| && OccursAt(a, x, k);
    assert t[k..k + |x|] == a[k..k + |x|];
    assert OccursAt(t, x, k);
  }

  lemma PromptsAreUnmarked(k: nat)
    requires k < |PROMPTS|
    ensures NoMark(PROMPTS[k]) && PROMPTS[k] != ""
  {
    assert NoMark("password:") && NoMark("passphrase:") && NoMark("secret:");
  }

  lemma NoWordOnScreen(prompt: string, a: string, t: string, k: nat)
    requires prompt != "" && PromptMark(prompt[|prompt| - 1]) && FreeOfWords(prompt) && FreeOfWords(t) && a <= t && k < |PROMPTS|
    ensures !Contains(Trimmed(prompt + a), PROMPTS[k])
  {
    TrimmedContains(Lower(prompt + a), PROMPTS[k]);
    PromptsAreUnmarked(k);
    assert Lower(prompt + a) == Lower(prompt) + Lower(a);
    assert Lower(a) <= Lower(t);
    if Contains(Lower(prompt + a), PROMPTS[k]) {
      OneSideOfMark(Lower(prompt), Lower(a), PROMPTS[k]);
      if Contains(Lower(a), PROMPTS[k]) {
        PrefixContains(Lower(a), Lower(t), PROMPTS[k]);
      }
    }
  }

  lemma NoPasswordOnScreen(prompt: string, a: string, t: string)
    requires prompt != "" && PromptMark(prompt[|prompt| - 1]) && FreeOfWords(prompt) && FreeOfWords(t) && a <= t
    ensures !PasswordPrompt(prompt + a)
  {
    NoWordOnScreen(prompt, a, t, 0);
    NoWordOnScreen(prompt, a, t, 1);
    NoWordOnScreen(prompt, a, t, 2);
  }

  lemma PlainNeverAsks(line: string)
    requires FreeOfWords(line)
    ensures !PasswordPrompt(line)
  {
    forall k: nat | k < |PROMPTS| ensures !Contains(Trimmed(line), PROMPTS[k]) {
      TrimmedContains(Lower(line), PROMPTS[k]);
    }
    assert !Contains(Trimmed(line), PROMPTS[0]) && !Contains(Trimmed(line), PROMPTS[1]) && !Contains(Trimmed(line), PROMPTS[2]);
  }

  /** Chunk after chunk the device wrote lines free of the password words, or part of the prompt and of the text
      that the user typed, both free of them too. */
  predicate PlainScreens(screens: seq<string>, mark: string, text: string) {
    forall i | 0 <= i < |screens| ::
      FreeOfWords(screens[i]) || (mark <= screens[i] && screens[i][|mark|..] <= text)
  }

  lemma PlainScreensNeverAsk(screens: seq<string>, mark: string, text: string)
    requires mark != "" && PromptMark(mark[|mark| - 1]) && FreeOfWords(mark) && FreeOfWords(text)
    requires PlainScreens(screens, mark, text)
    ensures !Asked(screens)
  {
    forall i | 0 <= i < |screens| ensures !PasswordPrompt(screens[i]) {
      if FreeOfWords(screens[i]) {
        PlainNeverAsks(screens[i]);
      } else {
        assert screens[i] == mark + screens[i][|mark|..];
        NoPasswordOnScreen(mark, screens[i][|mark|..], text);
      }
    }
  }

  /** In every run without a credential: once the device has echoed, after a prompt, just the plain line the user
      typed, in whatever chunks, that line is judged. */
  lemma PlainEchoJudgesTypedText(cfg: Config, actions: seq<Action>, mark: string, blanks: string)
    requires cfg.Credential() == ""
    requires mark != "" && PromptMark(mark[|mark| - 1]) && FreeOfWords(mark) && Blanks(blanks)
    ensures var s := Run(cfg, START, actions);
            var text := Net(s.eaten);
            s.user.Typing? && Enters(s.eaten + [s.user.c])
            && NoMark(text) && FreeOfWords(blanks + text) && PlainScreens(s.screens, mark, blanks + text)
            && Displayed(s.shown) == mark + (blanks + text) ==>
              Apply(cfg, s, UserStep).judged == s.judged + [Line(false, TrimSpace(text))]
  {
    var s := Run(cfg, START, actions);
    var text := Net(s.eaten);
    if NoMark(text) && FreeOfWords(blanks + text) && PlainScreens(s.screens, mark, blanks + text)
       && Displayed(s.shown) == mark + (blanks + text)
    {
      PlainScreensNeverAsk(s.screens, mark, blanks + text);
      var prompt := mark + blanks;
      assert prompt[|prompt| - |blanks| - 1] == mark[|mark| - 1] && prompt[|prompt| - |blanks|..] == blanks;
      assert prompt + text == mark + (blanks + text);
      EchoedLineJudgesTypedText(cfg, actions, prompt, |blanks|);
    }
  }
}
