/**
 Where a Decide call gets its rule from.  Between reading the target, the requester's groups, the matrix and the
 approver's groups the tables may change, so a rule is matched against readings that may come from different
 moments; each of them is a moment of the run.
 */
module ApprovalProvenance {
  import opened Option
  import opened ApprovalMatrix
  import opened ApprovalTables
  import opened ApprovalMachine

  /** The tables that rules and authorizations are read from. */
  datatype Config = Config(matrix: seq<MatrixRule>, targets: map<int, Target>, memberships: map<int, seq<int>>)

  function ConfigOf(t: Tables): Config {
    Config(t.matrix, t.targets, t.memberships)
  }

  function GroupsIn(c: Config, user: int): seq<int> {
    if user in c.memberships then c.memberships[user] else []
  }

  /** Every configuration that stands at some moment of a run. */
  function Configs(setup: Setup, s: System, actions: seq<Action>): set<Config>
    decreases |actions|
  {
    {ConfigOf(s.tables)} + if actions == [] then {} else Configs(setup, Apply(setup, s, actions[0]), actions[1..])
  }

  /** The best rule for a request, the target read from one configuration, the groups from another, the matrix from a third. */
  predicate RuleFrom(setup: Setup, p: Config, q: Config, m: Config, user: int, target: int, rule: Option<MatrixRule>) {
    if setup.hasMatrix then
      && target in p.targets
      && rule == BestRule(m.matrix, p.targets[target].kind, p.targets[target].tier, if setup.hasGroups then GroupsIn(q, user) else [])
    else rule == None
  }

  ghost predicate MatchedRule(setup: Setup, seen: set<Config>, user: int, target: int, rule: Option<MatrixRule>) {
    exists p, q, m :: p in seen && q in seen && m in seen && RuleFrom(setup, p, q, m, user, target, rule)
  }

  ghost predicate ReadTarget(seen: set<Config>, id: int, target: Target) {
    exists p :: p in seen && id in p.targets && p.targets[id] == target
  }

  ghost predicate ReadGroups(seen: set<Config>, user: int, groups: seq<int>) {
    exists q :: q in seen && GroupsIn(q, user) == groups
  }

  ghost predicate ReadRequesterGroups(setup: Setup, seen: set<Config>, user: int, groups: seq<int>) {
    if setup.hasGroups then ReadGroups(seen, user, groups) else groups == []
  }

  // ---------------------------------------------------------------- what a call carries

  predicate SameRequest(t: Tables, t': Tables, id: int) {
    id in t.requests ==>
      id in t'.requests && t'.requests[id].userId == t.requests[id].userId && t'.requests[id].targetId == t.requests[id].targetId
  }

  predicate ReadsRequest(t: Tables, id: int, req: Request) {
    id in t.requests && req.userId == t.requests[id].userId && req.targetId == t.requests[id].targetId
  }

  ghost predicate Matched(setup: Setup, seen: set<Config>, t: Tables, id: int, rule: Option<MatrixRule>) {
    id in t.requests && MatchedRule(setup, seen, t.requests[id].userId, t.requests[id].targetId, rule)
  }

  /** The number is the threshold of a rule matched for the request. */
  ghost predicate MatchedNeed(setup: Setup, seen: set<Config>, t: Tables, id: int, need: int) {
    exists rule :: Matched(setup, seen, t, id, rule) && need == Threshold(rule)
  }

  /** The authorization check passed, on a matched rule and on groups the approver had. */
  ghost predicate TracedWarrant(setup: Setup, seen: set<Config>, t: Tables, id: int, approver: int, w: Warrant) {
    Warranted(setup, w) && Matched(setup, seen, t, id, w.rule) && ReadGroups(seen, approver, w.memberOf)
  }

  ghost predicate TracedCall(setup: Setup, seen: set<Config>, t: Tables, c: Call) {
    match c.phase
    case Started => true
    case Loaded(req) => ReadsRequest(t, c.id, req)
    case Located(req, target) => ReadsRequest(t, c.id, req) && setup.hasMatrix && ReadTarget(seen, req.targetId, target)
    case Grouped(req, target, groups) =>
      && ReadsRequest(t, c.id, req) && setup.hasMatrix && ReadTarget(seen, req.targetId, target)
      && ReadRequesterGroups(setup, seen, req.userId, groups)
    case Ruled(rule) => Matched(setup, seen, t, c.id, rule)
    case Cleared(required, w) =>
      TracedWarrant(setup, seen, t, c.id, c.approver, w) && w.role == c.role && required == Threshold(w.rule)
    case Recorded(required) => MatchedNeed(setup, seen, t, c.id, required)
    case Counted(required, _, _) => MatchedNeed(setup, seen, t, c.id, required)
    case Finished(_) => true
  }

  /** A recorded vote was cast by a call that carried this role and choice, under a traced warrant. */
  ghost predicate TracedBallot(setup: Setup, seen: set<Config>, s: System, b: Ballot) {
    && TracedWarrant(setup, seen, s.tables, b.request, b.approver, b.warrant)
    && b.required == Threshold(b.warrant.rule)
    && b.caller in s.calls
    && var c := s.calls[b.caller];
       c.id == b.request && c.approver == b.approver && c.approve == b.approve && c.role == b.warrant.role
  }

  ghost predicate Traced(setup: Setup, seen: set<Config>, s: System) {
    && ConfigOf(s.tables) in seen
    && (forall tid | tid in s.calls :: TracedCall(setup, seen, s.tables, s.calls[tid]))
    && (forall i | 0 <= i < |s.ballots| :: TracedBallot(setup, seen, s, s.ballots[i]))
    && (forall id | id in s.grants :: MatchedNeed(setup, seen, s.tables, id, s.grants[id].required))
  }

  // ---------------------------------------------------------------- later moments

  lemma MatchedGrows(setup: Setup, seen: set<Config>, seen': set<Config>, t: Tables, t': Tables, id: int, rule: Option<MatrixRule>)
    requires seen <= seen' && SameRequest(t, t', id) && Matched(setup, seen, t, id, rule)
    ensures Matched(setup, seen', t', id, rule)
  {
    var user, target := t.requests[id].userId, t.requests[id].targetId;
    var p, q, m :| p in seen && q in seen && m in seen && RuleFrom(setup, p, q, m, user, target, rule);
    assert p in seen' && q in seen' && m in seen';
  }

  lemma NeedGrows(setup: Setup, seen: set<Config>, seen': set<Config>, t: Tables, t': Tables, id: int, need: int)
    requires seen <= seen' && SameRequest(t, t', id) && MatchedNeed(setup, seen, t, id, need)
    ensures MatchedNeed(setup, seen', t', id, need)
  {
    var rule :| Matched(setup, seen, t, id, rule) && need == Threshold(rule);
    MatchedGrows(setup, seen, seen', t, t', id, rule);
  }

  lemma ReadsGrow(setup: Setup, seen: set<Config>, seen': set<Config>)
    requires seen <= seen'
    ensures forall id, target :: ReadTarget(seen, id, target) ==> ReadTarget(seen', id, target)
    ensures forall user, groups :: ReadGroups(seen, user, groups) ==> ReadGroups(seen', user, groups)
  {
    forall id, target | ReadTarget(seen, id, target) ensures ReadTarget(seen', id, target) {
      var p :| p in seen && id in p.targets && p.targets[id] == target;
      assert p in seen';
    }
    forall user, groups | ReadGroups(seen, user, groups) ensures ReadGroups(seen', user, groups) {
      var q :| q in seen && GroupsIn(q, user) == groups;
      assert q in seen';
    }
  }

  lemma CallGrows(setup: Setup, seen: set<Config>, seen': set<Config>, t: Tables, t': Tables, c: Call)
    requires seen <= seen' && SameRequest(t, t', c.id) && TracedCall(setup, seen, t, c)
    ensures TracedCall(setup, seen', t', c)
  {
    ReadsGrow(setup, seen, seen');
    match c.phase
    case Ruled(rule) => MatchedGrows(setup, seen, seen', t, t', c.id, rule);
    case Cleared(_, w) => MatchedGrows(setup, seen, seen', t, t', c.id, w.rule);
    case Recorded(required) => NeedGrows(setup, seen, seen', t, t', c.id, required);
    case Counted(required, _, _) => NeedGrows(setup, seen, seen', t, t', c.id, required);
    case _ =>
  }

  predicate SameCaster(c: Call, c': Call) {
    c'.id == c.id && c'.approver == c.approver && c'.approve == c.approve && c'.role == c.role
  }

  lemma BallotGrows(setup: Setup, seen: set<Config>, seen': set<Config>, s: System, s': System, b: Ballot)
    requires seen <= seen' && SameRequest(s.tables, s'.tables, b.request) && TracedBallot(setup, seen, s, b)
    requires b.caller in s'.calls && SameCaster(s.calls[b.caller], s'.calls[b.caller])
    ensures TracedBallot(setup, seen', s', b)
  {
    ReadsGrow(setup, seen, seen');
    MatchedGrows(setup, seen, seen', s.tables, s'.tables, b.request, b.warrant.rule);
  }

  // ---------------------------------------------------------------- one statement

  lemma AdvanceKeepsRequests(setup: Setup, c: Call, t: Tables, now: int)
    ensures var (c', t') := Advance(setup, c, t, now);
            SameCaster(c, c') && ConfigOf(t') == ConfigOf(t) && forall id :: SameRequest(t, t', id)
  {
  }

  lemma RuleFromReadings(setup: Setup, seen: set<Config>, t: Tables, req: Request, target: Target, groups: seq<int>)
    requires setup.hasMatrix && ConfigOf(t) in seen
    requires ReadTarget(seen, req.targetId, target) && ReadRequesterGroups(setup, seen, req.userId, groups)
    ensures MatchedRule(setup, seen, req.userId, req.targetId, BestRule(t.matrix, target.kind, target.tier, groups))
  {
    var rule := BestRule(t.matrix, target.kind, target.tier, groups);
    var p :| p in seen && req.targetId in p.targets && p.targets[req.targetId] == target;
    var m := ConfigOf(t);
    if setup.hasGroups {
      var q :| q in seen && GroupsIn(q, req.userId) == groups;
      assert RuleFrom(setup, p, q, m, req.userId, req.targetId, rule);
    } else {
      assert RuleFrom(setup, p, p, m, req.userId, req.targetId, rule);
    }
  }

  lemma GroupsAreRead(setup: Setup, seen: set<Config>, t: Tables, user: int)
    requires ConfigOf(t) in seen
    ensures ReadGroups(seen, user, UserGroups(t, user))
    ensures ReadRequesterGroups(setup, seen, user, RequesterGroups(setup, t, user))
  {
    assert GroupsIn(ConfigOf(t), user) == UserGroups(t, user);
  }

  /** Each statement hands on readings of the tables as they stand. */
  lemma AdvanceIsTraced(setup: Setup, seen: set<Config>, c: Call, t: Tables, now: int)
    requires TracedCall(setup, seen, t, c) && ConfigOf(t) in seen
    ensures TracedCall(setup, seen, t, Advance(setup, c, t, now).0)
  {
    match c.phase
    case Loaded(req) =>
      if !setup.hasMatrix {
        var m := ConfigOf(t);
        assert RuleFrom(setup, m, m, m, req.userId, req.targetId, None);
      } else if req.targetId in t.targets {
        var m := ConfigOf(t);
        assert m in seen && req.targetId in m.targets;
      }
    case Located(req, _) => GroupsAreRead(setup, seen, t, req.userId);
    case Grouped(req, target, groups) => RuleFromReadings(setup, seen, t, req, target, groups);
    case Ruled(_) => GroupsAreRead(setup, seen, t, c.approver);
    case Cleared(required, w) => assert Matched(setup, seen, t, c.id, w.rule);
    case _ =>
  }

  lemma CallStepIsTraced(setup: Setup, seen: set<Config>, s: System, tid: int, now: int)
    requires Traced(setup, seen, s) && tid in s.calls
    ensures Traced(setup, seen, AdvanceIn(setup, s, tid, now))
  {
    var c := s.calls[tid];
    var s' := AdvanceIn(setup, s, tid, now);
    AdvanceKeepsRequests(setup, c, s.tables, now);
    AdvanceIsTraced(setup, seen, c, s.tables, now);
    forall other | other in s'.calls ensures TracedCall(setup, seen, s'.tables, s'.calls[other]) {
      CallGrows(setup, seen, seen, s.tables, s'.tables, s'.calls[other]);
    }
    forall i | 0 <= i < |s'.ballots| ensures TracedBallot(setup, seen, s', s'.ballots[i]) {
      if i < |s.ballots| {
        BallotGrows(setup, seen, seen, s, s', s.ballots[i]);
      } else {
        MatchedGrows(setup, seen, seen, s.tables, s'.tables, c.id, c.phase.warrant.rule);
      }
    }
    forall id | id in s'.grants ensures MatchedNeed(setup, seen, s'.tables, id, s'.grants[id].required) {
      if id in s.grants && s'.grants[id] == s.grants[id] {
        NeedGrows(setup, seen, seen, s.tables, s'.tables, id, s.grants[id].required);
      } else {
        NeedGrows(setup, seen, seen, s.tables, s'.tables, id, c.phase.required);
      }
    }
  }

  /** An action that moves no call leaves the ballots and the grants alone. */
  lemma OtherStepIsTraced(setup: Setup, seen: set<Config>, s: System, a: Action)
    requires Traced(setup, seen, s) && !a.AdvanceCall?
    ensures Traced(setup, seen + {ConfigOf(Apply(setup, s, a).tables)}, Apply(setup, s, a))
  {
    var s' := Apply(setup, s, a);
    var seen' := seen + {ConfigOf(s'.tables)};
    OtherStepFrame(setup, s, a);
    forall tid | tid in s'.calls ensures TracedCall(setup, seen', s'.tables, s'.calls[tid]) {
      if tid in s.calls {
        CallGrows(setup, seen, seen', s.tables, s'.tables, s.calls[tid]);
      }
    }
    forall i | 0 <= i < |s'.ballots| ensures TracedBallot(setup, seen', s', s'.ballots[i]) {
      BallotGrows(setup, seen, seen', s, s', s.ballots[i]);
    }
    forall id | id in s'.grants ensures MatchedNeed(setup, seen', s'.tables, id, s'.grants[id].required) {
      NeedGrows(setup, seen, seen', s.tables, s'.tables, id, s.grants[id].required);
    }
  }

  lemma OtherStepFrame(setup: Setup, s: System, a: Action)
    requires !a.AdvanceCall?
    ensures var s' := Apply(setup, s, a);
            && s'.ballots == s.ballots && s'.grants == s.grants
            && (forall id :: SameRequest(s.tables, s'.tables, id))
            && (forall tid | tid in s.calls :: tid in s'.calls && s'.calls[tid] == s.calls[tid])
            && (forall tid | tid in s'.calls && tid !in s.calls :: s'.calls[tid].phase.Started?)
  {
  }

  lemma {:induction false} RunIsTraced(setup: Setup, seen: set<Config>, s: System, actions: seq<Action>)
    requires Traced(setup, seen, s)
    ensures Traced(setup, seen + Configs(setup, s, actions), Run(setup, s, actions))
    decreases |actions|
  {
    if actions == [] {
      assert seen + Configs(setup, s, actions) == seen;
    } else {
      var s' := Apply(setup, s, actions[0]);
      var seen' := seen + {ConfigOf(s'.tables)};
      if actions[0].AdvanceCall? {
        if actions[0].tid in s.calls {
          CallStepIsTraced(setup, seen, s, actions[0].tid, actions[0].now);
          AdvanceKeepsRequests(setup, s.calls[actions[0].tid], s.tables, actions[0].now);
        }
        assert seen' == seen;
      } else {
        OtherStepIsTraced(setup, seen, s, actions[0]);
      }
      RunIsTraced(setup, seen', s', actions[1..]);
      ConfigsStart(setup, s', actions[1..]);
      assert seen' + Configs(setup, s', actions[1..]) == seen + Configs(setup, s, actions);
    }
  }

  lemma ConfigsStart(setup: Setup, s: System, actions: seq<Action>)
    ensures ConfigOf(s.tables) in Configs(setup, s, actions)
  {
  }

  // ---------------------------------------------------------------- set-up, then decisions

  /** Set-up files requests and edits tables; no call begins. */
  predicate NoCalls(actions: seq<Action>) {
    forall i | 0 <= i < |actions| :: !actions[i].BeginDecide?
  }

  lemma {:induction false} SetUpState(setup: Setup, s: System, actions: seq<Action>)
    requires NoCalls(actions) && s.calls == map[] && s.ballots == [] && s.grants == map[]
    ensures var s' := Run(setup, s, actions); s'.calls == map[] && s'.ballots == [] && s'.grants == map[]
    decreases |actions|
  {
    if actions != [] {
      SetUpState(setup, Apply(setup, s, actions[0]), actions[1..]);
    }
  }

  /** After set-up, what calls carry comes from configurations that stood after set-up. */
  lemma TracedAfterSetUp(setup: Setup, before: seq<Action>, after: seq<Action>)
    requires NoCalls(before)
    ensures var s := Run(setup, EMPTY, before);
            Traced(setup, Configs(setup, s, after), Run(setup, s, after))
  {
    var s := Run(setup, EMPTY, before);
    SetUpState(setup, EMPTY, before);
    RunIsTraced(setup, {ConfigOf(s.tables)}, s, after);
    ConfigsStart(setup, s, after);
    assert {ConfigOf(s.tables)} + Configs(setup, s, after) == Configs(setup, s, after);
  }

  /** None of the actions that edit rules, targets or memberships. */
  predicate KeepsConfig(a: Action) {
    !a.AddRule? && !a.ChangeRule? && !a.DropRule? && !a.SetMemberships? && !a.SetTarget?
  }

  predicate AllKeepConfig(actions: seq<Action>) {
    forall i | 0 <= i < |actions| :: KeepsConfig(actions[i])
  }

  lemma {:induction false} OneConfig(setup: Setup, s: System, actions: seq<Action>)
    requires AllKeepConfig(actions)
    ensures Configs(setup, s, actions) == {ConfigOf(s.tables)} && ConfigOf(Run(setup, s, actions).tables) == ConfigOf(s.tables)
    decreases |actions|
  {
    if actions != [] {
      var s' := Apply(setup, s, actions[0]);
      assert KeepsConfig(actions[0]);
      if actions[0].AdvanceCall? && actions[0].tid in s.calls {
        AdvanceKeepsRequests(setup, s.calls[actions[0].tid], s.tables, actions[0].now);
      }
      assert ConfigOf(s'.tables) == ConfigOf(s.tables);
      OneConfig(setup, s', actions[1..]);
    }
  }

  /** With one configuration, the matched rule is the one that governs the request. */
  lemma MatchedIsGoverning(setup: Setup, t: Tables, id: int, rule: Option<MatrixRule>)
    requires Matched(setup, {ConfigOf(t)}, t, id, rule)
    ensures rule == GoverningRule(setup, t, t.requests[id])
  {
    var m := ConfigOf(t);
    var req := t.requests[id];
    assert RuleFrom(setup, m, m, m, req.userId, req.targetId, rule);
    assert GroupsIn(m, req.userId) == UserGroups(t, req.userId);
  }

  lemma GroupsAreCurrent(t: Tables, user: int, groups: seq<int>)
    requires ReadGroups({ConfigOf(t)}, user, groups)
    ensures groups == UserGroups(t, user)
  {
  }
}
