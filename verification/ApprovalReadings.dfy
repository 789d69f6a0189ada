/**
 When a rule matched against readings is not the rule that governs the request.  Decide reads the target, then the
 requester's groups, then the matrix; a run in which a rule is matched that governed at no moment, and exactly
 which earlier readings are still good when the matrix is read.
 */
module ApprovalReadings {
  import opened Option
  import opened Text
  import opened ApprovalMatrix
  import opened ApprovalTables
  import opened ApprovalMachine
  import opened ApprovalProvenance

  // ---------------------------------------------------------------- a rule of no moment

  const WITH_MATRIX := Setup(true, false)
  const LINUX := MatrixRule(0, "linux hosts", "linux", 0, 3, 1, [], [], 100, true)
  const STORED := LINUX.(id := 5)
  const ASKED := Request(7, 20, "maintenance", Pending, None, 100, None, DEFAULT_TTL, false, false)

  /** The kind is read while there is no rule; the target changes its kind before a rule for the old one appears. */
  const MIXED := [
    FileRequest(1, 7, 20, "maintenance", 0, false, 100),
    SetTarget(20, Target("linux", 0)),
    BeginDecide(81, 1, 8, "admin", true, ""),
    AdvanceCall(81, 200),
    AdvanceCall(81, 200),
    SetTarget(20, Target("cisco", 0)),
    AddRule(LINUX, 5),
    AdvanceCall(81, 200),
    AdvanceCall(81, 200)]

  /** The tables after each kind of edit, and the call at each of its steps. */
  function Moment(targets: map<int, Target>, matrix: seq<MatrixRule>, calls: map<int, Call>): System {
    System(Tables(map[1 := ASKED], map[], targets, matrix, map[]), calls, [], map[], map[])
  }

  function CallAt(p: Phase): map<int, Call> {
    map[81 := Call(1, 8, "admin", true, "", p)]
  }

  const WAS_LINUX := map[20 := Target("linux", 0)]
  const IS_CISCO := map[20 := Target("cisco", 0)]

  lemma RunStep(setup: Setup, s: System, actions: seq<Action>)
    requires actions != []
    ensures Run(setup, s, actions) == Run(setup, Apply(setup, s, actions[0]), actions[1..])
  {
  }

  lemma ConfigStep(setup: Setup, s: System, actions: seq<Action>)
    requires actions != []
    ensures Configs(setup, s, actions) == {ConfigOf(s.tables)} + Configs(setup, Apply(setup, s, actions[0]), actions[1..])
  {
  }

  /** The run goes on from s' with the rest. */
  ghost predicate GoesOn(setup: Setup, s: System, actions: seq<Action>, s': System, rest: seq<Action>) {
    && Run(setup, s, actions) == Run(setup, s', rest)
    && Configs(setup, s, actions) == {ConfigOf(s.tables)} + Configs(setup, s', rest)
  }

  lemma RunFirst(setup: Setup, s: System, actions: seq<Action>, s': System)
    requires actions != [] && Apply(setup, s, actions[0]) == s'
    ensures GoesOn(setup, s, actions, s', actions[1..])
  {
    RunStep(setup, s, actions);
    ConfigStep(setup, s, actions);
  }

  lemma SameCall(p: Phase, q: Phase)
    ensures CallAt(p)[81 := CallAt(p)[81].(phase := q)] == CallAt(q)
  {
  }

  const LINUX_READ := Moment(WAS_LINUX, [], CallAt(Located(ASKED, Target("linux", 0))))
  const BEGUN := Moment(WAS_LINUX, [], CallAt(Started))
  const EDITED := Moment(IS_CISCO, [STORED], CallAt(Located(ASKED, Target("linux", 0))))
  const MATCHED := Moment(IS_CISCO, [STORED], CallAt(Ruled(Some(STORED))))

  lemma SetUpMoments()
    ensures Run(WITH_MATRIX, EMPTY, MIXED) == Run(WITH_MATRIX, BEGUN, MIXED[3..])
    ensures Configs(WITH_MATRIX, EMPTY, MIXED) ==
            {Config([], map[], map[]), Config([], WAS_LINUX, map[])} + Configs(WITH_MATRIX, BEGUN, MIXED[3..])
  {
    var filed := Moment(map[], [], map[]);
    var known := Moment(WAS_LINUX, [], map[]);
    assert MIXED[1..][0] == MIXED[1] && MIXED[1..][1..] == MIXED[2..];
    assert MIXED[2..][0] == MIXED[2] && MIXED[2..][1..] == MIXED[3..];
    RunFirst(WITH_MATRIX, EMPTY, MIXED, filed);
    RunFirst(WITH_MATRIX, filed, MIXED[1..], known);
    RunFirst(WITH_MATRIX, known, MIXED[2..], BEGUN);
  }

  lemma ReadMoments()
    ensures Run(WITH_MATRIX, BEGUN, MIXED[3..]) == Run(WITH_MATRIX, LINUX_READ, MIXED[5..])
    ensures Configs(WITH_MATRIX, BEGUN, MIXED[3..]) ==
            {Config([], WAS_LINUX, map[])} + Configs(WITH_MATRIX, LINUX_READ, MIXED[5..])
  {
    var loaded := Moment(WAS_LINUX, [], CallAt(Loaded(ASKED)));
    SameCall(Started, Loaded(ASKED));
    SameCall(Loaded(ASKED), Located(ASKED, Target("linux", 0)));
    assert MIXED[3..][0] == MIXED[3] && MIXED[3..][1..] == MIXED[4..];
    assert MIXED[4..][0] == MIXED[4] && MIXED[4..][1..] == MIXED[5..];
    RunFirst(WITH_MATRIX, BEGUN, MIXED[3..], loaded);
    RunFirst(WITH_MATRIX, loaded, MIXED[4..], LINUX_READ);
  }

  lemma EditMoments()
    ensures Run(WITH_MATRIX, LINUX_READ, MIXED[5..]) == Run(WITH_MATRIX, EDITED, MIXED[7..])
    ensures Configs(WITH_MATRIX, LINUX_READ, MIXED[5..]) ==
            {Config([], WAS_LINUX, map[]), Config([], IS_CISCO, map[])} + Configs(WITH_MATRIX, EDITED, MIXED[7..])
  {
    var changed := Moment(IS_CISCO, [], CallAt(Located(ASKED, Target("linux", 0))));
    LinuxRuleMatches();
    assert MIXED[5..][0] == MIXED[5] && MIXED[5..][1..] == MIXED[6..];
    assert MIXED[6..][0] == MIXED[6] && MIXED[6..][1..] == MIXED[7..];
    assert WAS_LINUX[20 := Target("cisco", 0)] == IS_CISCO;
    RunFirst(WITH_MATRIX, LINUX_READ, MIXED[5..], changed);
    RunFirst(WITH_MATRIX, changed, MIXED[6..], EDITED);
  }

  lemma MatchMoments()
    ensures Run(WITH_MATRIX, EDITED, MIXED[7..]) == MATCHED
    ensures Configs(WITH_MATRIX, EDITED, MIXED[7..]) == {Config([STORED], IS_CISCO, map[])}
  {
    var linux := Target("linux", 0);
    var grouped := Moment(IS_CISCO, [STORED], CallAt(Grouped(ASKED, linux, [])));
    SameCall(Located(ASKED, linux), Grouped(ASKED, linux, []));
    SameCall(Grouped(ASKED, linux, []), Ruled(Some(STORED)));
    LinuxRuleMatches();
    assert MIXED[7..][0] == MIXED[7] && MIXED[7..][1..] == MIXED[8..];
    assert MIXED[8..][0] == MIXED[8] && MIXED[8..][1..] == [];
    RunFirst(WITH_MATRIX, EDITED, MIXED[7..], grouped);
    RunFirst(WITH_MATRIX, grouped, MIXED[8..], MATCHED);
  }

  lemma LinuxRuleMatches()
    ensures BestRule([STORED], "linux", 0, []) == Some(STORED)
    ensures CreateRule([], LINUX, 5) == [STORED]
  {
    assert [STORED][1..] == [];
    assert BestRule([], "linux", 0, []) == None;
    assert LINUX.name[0] == 'l' && LINUX.targetKind[0] == 'l';
  }

  lemma CiscoIsNotLinux()
    ensures BestRule([STORED], "cisco", 0, []) == None
  {
    assert [STORED][1..] == [];
    assert BestRule([], "cisco", 0, []) == None;
    assert "cisco"[0] == 'c' && "cisco"[1] == 'i' && STORED.targetKind[0] == 'l' && "*"[0] == '*';
    assert |FamilyOf("cisco")| > 0 && FamilyOf("cisco")[0] == 'c';
  }

  lemma MixedMoments()
    ensures Run(WITH_MATRIX, EMPTY, MIXED) == MATCHED
    ensures Configs(WITH_MATRIX, EMPTY, MIXED) ==
            {Config([], map[], map[]), Config([], WAS_LINUX, map[]), Config([], IS_CISCO, map[]), Config([STORED], IS_CISCO, map[])}
  {
    SetUpMoments();
    ReadMoments();
    EditMoments();
    MatchMoments();
  }

  /** Before the edits there is no rule, and after them none for the target. */
  lemma GovernsNowhere(c: Config)
    requires c.matrix == [] || (c.matrix == [STORED] && c.targets == IS_CISCO)
    ensures !RuleFrom(WITH_MATRIX, c, c, c, 7, 20, Some(STORED))
  {
    CiscoIsNotLinux();
  }

  /** The call has matched a rule for the request, and no configuration of the whole run has it as the rule that governs
      the request. */
  lemma RuleOfNoMoment()
    ensures var s := Run(WITH_MATRIX, EMPTY, MIXED);
            && 81 in s.calls && s.calls[81].id == 1 && s.calls[81].phase == Ruled(Some(STORED))
            && forall c | c in Configs(WITH_MATRIX, EMPTY, MIXED) :: !RuleFrom(WITH_MATRIX, c, c, c, 7, 20, Some(STORED))
  {
    MixedMoments();
    forall c | c in Configs(WITH_MATRIX, EMPTY, MIXED) ensures !RuleFrom(WITH_MATRIX, c, c, c, 7, 20, Some(STORED)) {
      GovernsNowhere(c);
    }
  }

  // ---------------------------------------------------------------- which readings are still good

  predicate SameGroups(a: seq<int>, b: seq<int>) {
    (forall i | 0 <= i < |a| :: a[i] in b) && forall i | 0 <= i < |b| :: b[i] in a
  }

  lemma MeetsSame(a: seq<int>, b: seq<int>, b': seq<int>)
    requires SameGroups(b, b') && Meets(a, b)
    ensures Meets(a, b')
  {
    var j :| 0 <= j < |b| && b[j] in a;
    assert b[j] in b';
    var k :| 0 <= k < |b'| && b'[k] == b[j];
  }

  lemma AppliesSame(r: MatrixRule, kind: string, tier: int, groups: seq<int>, groups': seq<int>)
    requires SameGroups(groups, groups')
    ensures Applies(r, kind, tier, groups) == Applies(r, kind, tier, groups')
  {
    if Meets(r.requesterGroups, groups) { MeetsSame(r.requesterGroups, groups, groups'); }
    if Meets(r.requesterGroups, groups') { MeetsSame(r.requesterGroups, groups', groups); }
  }

  lemma {:induction false} BestRuleSame(rules: seq<MatrixRule>, kind: string, tier: int, groups: seq<int>, groups': seq<int>)
    requires SameGroups(groups, groups')
    ensures BestRule(rules, kind, tier, groups) == BestRule(rules, kind, tier, groups')
  {
    if rules != [] {
      BestRuleSame(rules[1..], kind, tier, groups, groups');
      AppliesSame(rules[0], kind, tier, groups, groups');
    }
  }

  lemma OnlyRule(r: MatrixRule, kind: string, tier: int, groups: seq<int>)
    ensures BestRule([r], kind, tier, groups) == if Applies(r, kind, tier, groups) then Some(r) else None
  {
    assert [r][1..] == [];
    assert BestRule([], kind, tier, groups) == None;
  }

  function RuleFor(kind: string, low: int, high: int, groups: seq<int>): MatrixRule {
    MatrixRule(1, "rule", kind, low, high, 1, groups, [], 100, true)
  }

  /** A rule that tells two readings apart, when they can be. */
  function Telling(a: Target, b: Target, g: seq<int>, h: seq<int>): MatrixRule {
    if a.kind != b.kind then
      RuleFor(if a.kind == "*" || FamilyOf(b.kind) == a.kind then b.kind else a.kind,
              if a.tier < b.tier then a.tier else b.tier, if a.tier < b.tier then b.tier else a.tier, [])
    else if a.tier != b.tier then RuleFor(a.kind, a.tier, a.tier, [])
    else if exists i | 0 <= i < |g| :: g[i] !in h then
      var i := FirstOutside(g, h);
      RuleFor(a.kind, a.tier, a.tier, [g[i]])
    else if exists i | 0 <= i < |h| :: h[i] !in g then
      var i := FirstOutside(h, g);
      RuleFor(a.kind, a.tier, a.tier, [h[i]])
    else RuleFor(a.kind, a.tier, a.tier, [])
  }

  function FirstOutside(g: seq<int>, h: seq<int>): (i: nat)
    requires exists i | 0 <= i < |g| :: g[i] !in h
    ensures i < |g| && g[i] !in h
  {
    if g[0] !in h then 0 else
      assert g == [g[0]] + g[1..];
      1 + FirstOutside(g[1..], h)
  }

  lemma TellsKinds(a: Target, b: Target, g: seq<int>, h: seq<int>)
    requires a.kind != b.kind
    ensures Applies(Telling(a, b, g, h), a.kind, a.tier, g) != Applies(Telling(a, b, g, h), b.kind, b.tier, h)
  {
    FamilyIsPrefix(a.kind);
    FamilyIsPrefix(b.kind);
  }

  lemma FamilyIsPrefix(kind: string)
    ensures FamilyOf(kind) <= kind && (FamilyOf(kind) == "*" <==> kind == "*" || (|kind| >= 2 && kind[0] == '*' && kind[1] == '-'))
  {
    var i := IndexOf(kind, '-');
    if 0 < i < |kind| && kind[0] == '*' && kind[1] == '-' {
      assert i == 1;
    }
    if FamilyOf(kind) == "*" && kind != "*" {
      assert |kind[..i]| == 1 && kind[..i][0] == kind[0];
    }
  }

  lemma TellsGroups(a: Target, g: seq<int>, h: seq<int>)
    requires !SameGroups(g, h)
    ensures Applies(Telling(a, a, g, h), a.kind, a.tier, g) != Applies(Telling(a, a, g, h), a.kind, a.tier, h)
  {
    var r := Telling(a, a, g, h);
    var x := r.requesterGroups[0];
    if x in g {
      var j :| 0 <= j < |g| && g[j] == x;
      assert Meets(r.requesterGroups, g) && !Meets(r.requesterGroups, h);
    } else {
      var j :| 0 <= j < |h| && h[j] == x;
      assert Meets(r.requesterGroups, h) && !Meets(r.requesterGroups, g);
    }
  }

  lemma Tells(a: Target, b: Target, g: seq<int>, h: seq<int>)
    requires a != b || !SameGroups(g, h)
    ensures Applies(Telling(a, b, g, h), a.kind, a.tier, g) != Applies(Telling(a, b, g, h), b.kind, b.tier, h)
  {
    if a.kind != b.kind {
      TellsKinds(a, b, g, h);
    } else if a.tier == b.tier {
      assert a == b;
      TellsGroups(a, g, h);
    }
  }

  /** Whatever the matrix says when it is read, the rule matched on these readings is the one that governs. */
  ghost predicate StillGood(setup: Setup, t: Tables, req: Request, target: Target, groups: seq<int>) {
    forall rules :: BestRule(rules, target.kind, target.tier, groups) == GoverningRule(setup, t.(matrix := rules), req)
  }

  /** Readings of the target and of the requester's groups are still good, exactly when the target's row is the one read
      and the groups are the same set. */
  lemma ReadingsStillGoodExactly(setup: Setup, t: Tables, req: Request, target: Target, groups: seq<int>)
    requires setup.hasMatrix && req.targetId in t.targets
    ensures StillGood(setup, t, req, target, groups) <==>
              target == t.targets[req.targetId] && SameGroups(groups, RequesterGroups(setup, t, req.userId))
  {
    var now, groups' := t.targets[req.targetId], RequesterGroups(setup, t, req.userId);
    if target == now && SameGroups(groups, groups') {
      forall rules ensures BestRule(rules, target.kind, target.tier, groups) == GoverningRule(setup, t.(matrix := rules), req) {
        BestRuleSame(rules, target.kind, target.tier, groups, groups');
      }
    } else {
      var r := Telling(target, now, groups, groups');
      Tells(target, now, groups, groups');
      OnlyRule(r, target.kind, target.tier, groups);
      OnlyRule(r, now.kind, now.tier, groups');
      assert BestRule([r], target.kind, target.tier, groups) != GoverningRule(setup, t.(matrix := [r]), req);
    }
  }
}
