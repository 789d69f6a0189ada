/** What holds of every run of the approval workflow, under every interleaving of its statements. */
module ApprovalTheorems {
  import opened Option
  import opened ApprovalMatrix
  import opened ApprovalTables
  import opened ApprovalMachine
  import opened ApprovalProvenance

  // ---------------------------------------------------------------- votes and ballots

  lemma VotersInsert(votes: map<(int, int), Vote>, id: int, approver: int, v: Vote, x: int, approve: bool)
    requires (id, approver) !in votes
    ensures Voters(votes[(id, approver) := v], x, approve) ==
            Voters(votes, x, approve) + if x == id && v.approve == approve then {approver} else {}
  {
    var votes' := votes[(id, approver) := v];
    forall a | a in Voters(votes, x, approve) ensures a in Voters(votes', x, approve) {
      assert (x, a) in votes && (x, a) in votes';
    }
    assert (id, approver) in votes';
  }

  lemma CastByAppend(ballots: seq<Ballot>, b: Ballot, x: int, approve: bool)
    ensures CastBy(ballots + [b], x, approve) ==
            CastBy(ballots, x, approve) + if b.request == x && b.approve == approve then {b.approver} else {}
  {
    var all := ballots + [b];
    forall a | a in CastBy(ballots, x, approve) ensures a in CastBy(all, x, approve) {
      var i :| 0 <= i < |ballots| && ballots[i].request == x && ballots[i].approve == approve && ballots[i].approver == a;
      assert all[i] == ballots[i];
    }
    assert all[|ballots|] == b;
  }

  lemma CastByPrefix(ballots: seq<Ballot>, n: nat, x: int, approve: bool)
    requires n <= |ballots|
    ensures CastBy(ballots[..n], x, approve) <= CastBy(ballots, x, approve)
    ensures |CastBy(ballots[..n], x, approve)| <= |CastBy(ballots, x, approve)|
  {
    SubsetSize(CastBy(ballots[..n], x, approve), CastBy(ballots, x, approve));
  }

  lemma {:induction false} SubsetSize<T>(a: set<T>, b: set<T>)
    requires a <= b
    ensures |a| <= |b|
  {
    assert b == a + (b - a);
  }

  lemma {:induction false} NoBallots(ballots: seq<Ballot>, id: int)
    requires forall i | 0 <= i < |ballots| :: ballots[i].request != id
    ensures LastNeed(ballots, id) == 1 && CastBy(ballots, id, true) == CastBy(ballots, id, false) == {}
  {
    if ballots != [] {
      NoBallots(ballots[..|ballots| - 1], id);
    }
  }

  // ---------------------------------------------------------------- every action keeps the invariant

  lemma FileKeepsInv(setup: Setup, s: System, a: Action)
    requires Inv(setup, s) && a.FileRequest? && a.id !in s.tables.requests
    ensures Inv(setup, Apply(setup, s, a))
  {
    var s' := Apply(setup, s, a);
    NoBallots(s.ballots, a.id);
    forall id | id in s'.tables.requests ensures NotLost(s', id) {
      if id != a.id {
        assert NotLost(s, id);
      }
    }
    forall tid | tid in s'.calls ensures SoundCall(setup, s', tid) {
      assert SoundCall(setup, s, tid);
    }
    forall id | id in s'.tables.requests ensures SoundStatus(s', id) {
      if id != a.id {
        assert SoundStatus(s, id);
      }
    }
  }

  /** Statements that leave votes, ballots and calls alone and keep every status or deny a granted request. */
  lemma TableEditKeepsInv(setup: Setup, s: System, t': Tables)
    requires Inv(setup, s)
    requires t'.votes == s.tables.votes && ThresholdsPositive(t'.matrix) && t'.requests.Keys == s.tables.requests.Keys
    requires forall id | id in t'.requests ::
               && t'.requests[id].userId == s.tables.requests[id].userId
               && (t'.requests[id].status == s.tables.requests[id].status
                   || (s.tables.requests[id].status == Approved && t'.requests[id].status == Denied))
    ensures Inv(setup, s.(tables := t'))
  {
    var s' := s.(tables := t');
    forall id | id in s'.tables.requests ensures NotLost(s', id) && SoundStatus(s', id) {
      assert NotLost(s, id) && SoundStatus(s, id);
      if s'.tables.requests[id].status == Pending && Decisive(s.ballots, id) {
        var w :| w in s.calls && s.calls[w].id == id && WillFinalize(s.calls[w], LastNeed(s.ballots, id));
        assert s'.calls[w] == s.calls[w];
      }
    }
    forall tid | tid in s'.calls ensures SoundCall(setup, s', tid) {
      assert SoundCall(setup, s, tid);
    }
    forall i | 0 <= i < |s'.ballots| ensures SoundBallot(setup, s'.tables, s'.ballots[i]) {
      assert SoundBallot(setup, s.tables, s.ballots[i]);
    }
  }

  /** What a statement of a call does when it neither votes, tallies nor finalizes: it moves that call only. */
  lemma QuietAdvance(setup: Setup, s: System, tid: int, now: int)
    requires Inv(setup, s) && tid in s.calls
    requires var p := s.calls[tid].phase; !p.Recorded? && !p.Counted?
    requires s.calls[tid].phase.Cleared? ==> (s.calls[tid].id, s.calls[tid].approver) in s.tables.votes
    ensures var c' := AdvanceIn(setup, s, tid, now).calls[tid];
            && AdvanceIn(setup, s, tid, now) == s.(calls := s.calls[tid := c'])
            && c'.id == s.calls[tid].id && !c'.phase.Recorded? && !c'.phase.Counted?
            && SoundCall(setup, s.(calls := s.calls[tid := c']), tid)
  {
    assert SoundCall(setup, s, tid);
    if s.calls[tid].phase.Grouped? {
      BestRuleIsMostSpecific(s.tables.matrix, s.calls[tid].phase.target.kind, s.calls[tid].phase.target.tier,
                             s.calls[tid].phase.requesterGroups);
    }
  }

  lemma MoveCallKeepsInv(setup: Setup, s: System, tid: int, c': Call)
    requires Inv(setup, s)
    requires tid in s.calls ==> !s.calls[tid].phase.Recorded? && !s.calls[tid].phase.Counted?
    requires SoundCall(setup, s.(calls := s.calls[tid := c']), tid)
    ensures Inv(setup, s.(calls := s.calls[tid := c']))
  {
    var s' := s.(calls := s.calls[tid := c']);
    forall other | other in s'.calls ensures SoundCall(setup, s', other) {
      if other != tid {
        assert SoundCall(setup, s, other);
      }
    }
    forall id | id in s'.tables.requests ensures NotLost(s', id) && SoundStatus(s', id) {
      assert NotLost(s, id) && SoundStatus(s, id);
      OtherWitness(s, s', tid, id);
    }
  }

  /** A call that was not going to finalize may change without losing anybody's decision. */
  lemma OtherWitness(s: System, s': System, tid: int, id: int)
    requires id in s.tables.requests && NotLost(s, id)
    requires tid in s.calls ==> !WillFinalize(s.calls[tid], LastNeed(s.ballots, id)) || s.calls[tid].id != id
    requires s'.ballots == s.ballots && forall w | w in s.calls && w != tid :: w in s'.calls && s'.calls[w] == s.calls[w]
    requires id in s'.tables.requests && s'.tables.requests[id].status == s.tables.requests[id].status
    ensures NotLost(s', id)
  {
    if s.tables.requests[id].status == Pending && Decisive(s.ballots, id) {
      var w :| w in s.calls && s.calls[w].id == id && WillFinalize(s.calls[w], LastNeed(s.ballots, id));
      assert s'.calls[w] == s.calls[w];
    }
  }

  lemma InsertKeepsHistory(setup: Setup, s: System, c: Call, b: Ballot, now: int)
    requires Inv(setup, s) && (c.id, c.approver) !in s.tables.votes
    requires b.request == c.id && b.approver == c.approver && b.approve == c.approve
    ensures VotesMatch(s.(tables := s.tables.(votes := s.tables.votes[(c.id, c.approver) := Vote(c.approve, c.comment, now)]),
                          ballots := s.ballots + [b]))
    ensures forall id | id in s.grants :: SoundGrant(s.ballots + [b], id, s.grants[id])
  {
    var v := Vote(c.approve, c.comment, now);
    forall id, approve
      ensures Voters(s.tables.votes[(c.id, c.approver) := v], id, approve) == CastBy(s.ballots + [b], id, approve)
    {
      VotersInsert(s.tables.votes, c.id, c.approver, v, id, approve);
      CastByAppend(s.ballots, b, id, approve);
      assert Voters(s.tables.votes, id, approve) == CastBy(s.ballots, id, approve);
    }
    forall id | id in s.grants ensures SoundGrant(s.ballots + [b], id, s.grants[id]) {
      assert SoundGrant(s.ballots, id, s.grants[id]);
      assert (s.ballots + [b])[..s.grants[id].at] == s.ballots[..s.grants[id].at];
    }
  }

  lemma InsertKeepsCalls(setup: Setup, s: System, s': System, tid: int, b: Ballot)
    requires forall w | w in s.calls :: SoundCall(setup, s, w)
    requires s'.tables.requests == s.tables.requests && s'.tallied == s.tallied && s'.ballots == s.ballots + [b]
    requires tid in s'.calls && s'.calls == s.calls[tid := s'.calls[tid]]
    requires SoundCall(setup, s', tid)
    ensures forall w | w in s'.calls :: SoundCall(setup, s', w)
  {
    forall w | w in s'.calls ensures SoundCall(setup, s', w) {
      if w != tid {
        assert SoundCall(setup, s, w);
        if s'.calls[w].phase.Counted? {
          assert s'.ballots[..s.tallied[w]] == s.ballots[..s.tallied[w]];
        }
      }
    }
  }

  lemma InsertKeepsRequest(s: System, s': System, tid: int, b: Ballot, id: int)
    requires id in s.tables.requests && NotLost(s, id) && SoundStatus(s, id)
    requires s'.tables.requests == s.tables.requests && s'.grants == s.grants && s'.ballots == s.ballots + [b]
    requires tid in s.calls && !s.calls[tid].phase.Recorded? && !s.calls[tid].phase.Counted?
    requires tid in s'.calls && s'.calls == s.calls[tid := s'.calls[tid]]
    requires s'.calls[tid].id == b.request && s'.calls[tid].phase == Recorded(b.required)
    ensures NotLost(s', id) && SoundStatus(s', id)
  {
    assert s'.ballots[..|s'.ballots| - 1] == s.ballots;
    CastByAppend(s.ballots, b, id, false);
    CastByAppend(s.ballots, b, id, true);
    if id == b.request {
      assert WillFinalize(s'.calls[tid], LastNeed(s'.ballots, id));
    } else if s.tables.requests[id].status == Pending && Decisive(s.ballots, id) {
      var w :| w in s.calls && s.calls[w].id == id && WillFinalize(s.calls[w], LastNeed(s.ballots, id));
      assert s'.calls[w] == s.calls[w];
    }
  }

  lemma InsertKeepsInv(setup: Setup, s: System, tid: int, now: int)
    requires Inv(setup, s) && tid in s.calls && s.calls[tid].phase.Cleared?
    requires (s.calls[tid].id, s.calls[tid].approver) !in s.tables.votes
    ensures Inv(setup, AdvanceIn(setup, s, tid, now))
  {
    var s' := AdvanceIn(setup, s, tid, now);
    var c := s.calls[tid];
    var b := Ballot(c.id, c.approver, c.approve, c.phase.required, c.phase.warrant, tid);
    assert SoundCall(setup, s, tid);
    InsertKeepsHistory(setup, s, c, b, now);
    InsertKeepsCalls(setup, s, s', tid, b);
    forall id | id in s'.tables.requests ensures NotLost(s', id) && SoundStatus(s', id) {
      InsertKeepsRequest(s, s', tid, b, id);
    }
  }

  lemma TallyKeepsInv(setup: Setup, s: System, tid: int, now: int)
    requires Inv(setup, s) && tid in s.calls && s.calls[tid].phase.Recorded?
    ensures Inv(setup, AdvanceIn(setup, s, tid, now))
  {
    var s' := AdvanceIn(setup, s, tid, now);
    var c := s.calls[tid];
    assert SoundCall(setup, s, tid);
    assert s.ballots[..|s.ballots|] == s.ballots;
    assert Voters(s.tables.votes, c.id, true) == CastBy(s.ballots, c.id, true);
    assert Voters(s.tables.votes, c.id, false) == CastBy(s.ballots, c.id, false);
    forall other | other in s'.calls ensures SoundCall(setup, s', other) {
      assert SoundCall(setup, s, other);
    }
    forall id | id in s'.tables.requests ensures NotLost(s', id) && SoundStatus(s', id) {
      assert NotLost(s, id) && SoundStatus(s, id);
      if s.tables.requests[id].status == Pending && Decisive(s.ballots, id) {
        var w :| w in s.calls && s.calls[w].id == id && WillFinalize(s.calls[w], LastNeed(s.ballots, id));
        assert s'.calls[w].id == id && WillFinalize(s'.calls[w], LastNeed(s'.ballots, id));
      }
    }
  }

  lemma FinalizeKeepsRequest(setup: Setup, s: System, tid: int, now: int, id: int)
    requires Inv(setup, s) && tid in s.calls && s.calls[tid].phase.Counted? && id in s.tables.requests
    ensures var s' := AdvanceIn(setup, s, tid, now);
            && id in s'.tables.requests && s'.tables.requests[id].userId == s.tables.requests[id].userId
            && NotLost(s', id) && SoundStatus(s', id)
            && (id in s'.grants ==> SoundGrant(s.ballots, id, s'.grants[id]))
  {
    var s' := AdvanceIn(setup, s, tid, now);
    var c := s.calls[tid];
    assert SoundCall(setup, s, tid) && NotLost(s, id) && SoundStatus(s, id);
    CastByPrefix(s.ballots, s.tallied[tid], c.id, false);
    if id == c.id && Verdict(c.phase.required, c.phase.have, c.phase.against) != Pending {
      assert s'.tables.requests[id].status != Pending;
    } else {
      assert s'.tables.requests[id] == s.tables.requests[id];
      OtherWitness(s, s', tid, id);
    }
  }

  lemma FinalizeKeepsInv(setup: Setup, s: System, tid: int, now: int)
    requires Inv(setup, s) && tid in s.calls && s.calls[tid].phase.Counted?
    ensures Inv(setup, AdvanceIn(setup, s, tid, now))
  {
    var s' := AdvanceIn(setup, s, tid, now);
    assert s'.tables.requests.Keys == s.tables.requests.Keys by {
      assert SoundCall(setup, s, tid);
    }
    forall id | id in s'.tables.requests
      ensures NotLost(s', id) && SoundStatus(s', id) && s'.tables.requests[id].userId == s.tables.requests[id].userId
      ensures id in s'.grants ==> SoundGrant(s'.ballots, id, s'.grants[id])
    {
      FinalizeKeepsRequest(setup, s, tid, now, id);
    }
    forall w | w in s'.calls ensures SoundCall(setup, s', w) {
      assert SoundCall(setup, s, w);
    }
    forall i | 0 <= i < |s'.ballots| ensures SoundBallot(setup, s'.tables, s'.ballots[i]) {
      assert SoundBallot(setup, s.tables, s.ballots[i]);
    }
  }

  lemma CallKeepsInv(setup: Setup, s: System, tid: int, now: int)
    requires Inv(setup, s) && tid in s.calls
    ensures Inv(setup, AdvanceIn(setup, s, tid, now))
  {
    var c := s.calls[tid];
    if c.phase.Recorded? {
      TallyKeepsInv(setup, s, tid, now);
    } else if c.phase.Counted? {
      FinalizeKeepsInv(setup, s, tid, now);
    } else if c.phase.Cleared? && (c.id, c.approver) !in s.tables.votes {
      InsertKeepsInv(setup, s, tid, now);
    } else {
      QuietAdvance(setup, s, tid, now);
      MoveCallKeepsInv(setup, s, tid, AdvanceIn(setup, s, tid, now).calls[tid]);
    }
  }

  /** Every step, of every kind, keeps the invariant. */
  lemma ApplyKeepsInv(setup: Setup, s: System, a: Action)
    requires Inv(setup, s)
    ensures Inv(setup, Apply(setup, s, a))
  {
    match a
    case FileRequest(id, _, _, _, _, _, _) => if id !in s.tables.requests { FileKeepsInv(setup, s, a); }
    case BeginDecide(tid, id, approver, role, approve, comment) =>
      if tid !in s.calls { MoveCallKeepsInv(setup, s, tid, Call(id, approver, role, approve, comment, Started)); }
    case AdvanceCall(tid, now) => if tid in s.calls { CallKeepsInv(setup, s, tid, now); }
    case Revoke(_, _, _) => TableEditKeepsInv(setup, s, Apply(setup, s, a).tables);
    case Renew(_, _, _) => TableEditKeepsInv(setup, s, Apply(setup, s, a).tables);
    case SetSudo(_, _) => TableEditKeepsInv(setup, s, Apply(setup, s, a).tables);
    case AddRule(_, _) => TableEditKeepsInv(setup, s, Apply(setup, s, a).tables);
    case ChangeRule(rule) =>
      UpdateKeepsThresholds(s.tables.matrix, rule);
      TableEditKeepsInv(setup, s, Apply(setup, s, a).tables);
    case DropRule(ruleId) =>
      DeleteKeepsThresholds(s.tables.matrix, ruleId);
      TableEditKeepsInv(setup, s, Apply(setup, s, a).tables);
    case SetMemberships(_, _) => TableEditKeepsInv(setup, s, Apply(setup, s, a).tables);
    case SetTarget(_, _) => TableEditKeepsInv(setup, s, Apply(setup, s, a).tables);
  }

  lemma {:induction false} RunKeepsInv(setup: Setup, s: System, actions: seq<Action>)
    requires Inv(setup, s)
    ensures Inv(setup, Run(setup, s, actions))
    decreases |actions|
  {
    if actions != [] {
      ApplyKeepsInv(setup, s, actions[0]);
      RunKeepsInv(setup, Apply(setup, s, actions[0]), actions[1..]);
    }
  }

  lemma Reachable(setup: Setup, actions: seq<Action>)
    ensures Inv(setup, Run(setup, EMPTY, actions))
  {
    RunKeepsInv(setup, EMPTY, actions);
  }

  // ---------------------------------------------------------------- main results

  /** No decision is lost, whatever edits the matrix saw: once no call is between its vote and its return,
      a pending request holds no denial and fewer approvals than its latest vote had to reach. */
  lemma NoLostDecision(setup: Setup, actions: seq<Action>, id: int)
    requires var s := Run(setup, EMPTY, actions); id in s.tables.requests && !VoteInFlight(s, id)
    ensures var s := Run(setup, EMPTY, actions);
            s.tables.requests[id].status == Pending <==>
              id !in s.grants && Voters(s.tables.votes, id, false) == {}
              && |Voters(s.tables.votes, id, true)| < LastNeed(s.ballots, id)
  {
    Reachable(setup, actions);
    var s := Run(setup, EMPTY, actions);
    assert NotLost(s, id) && SoundStatus(s, id);
    assert Voters(s.tables.votes, id, false) == CastBy(s.ballots, id, false);
    assert Voters(s.tables.votes, id, true) == CastBy(s.ballots, id, true);
  }

  predicate FixedNeed(ballots: seq<Ballot>, id: int, need: int) {
    forall i | 0 <= i < |ballots| && ballots[i].request == id :: ballots[i].required == need
  }

  lemma {:induction false} FixedNeedIsLast(ballots: seq<Ballot>, id: int, need: int)
    requires FixedNeed(ballots, id, need)
    ensures LastNeed(ballots, id) == need || CastBy(ballots, id, true) + CastBy(ballots, id, false) == {}
    ensures LastNeed(ballots, id) == need || LastNeed(ballots, id) == 1
  {
    if ballots != [] && ballots[|ballots| - 1].request != id {
      var init, last := ballots[..|ballots| - 1], ballots[|ballots| - 1];
      assert ballots == init + [last];
      assert forall i | 0 <= i < |init| :: init[i] == ballots[i];
      FixedNeedIsLast(init, id, need);
      CastByAppend(init, last, id, true);
      CastByAppend(init, last, id, false);
    }
  }

  lemma NoLostDecisionAtThreshold(setup: Setup, s: System, id: int, need: int)
    requires Inv(setup, s) && need >= 1 && id in s.tables.requests && !VoteInFlight(s, id)
    requires FixedNeed(s.ballots, id, need) && (id in s.grants ==> s.grants[id].required == need)
    ensures s.tables.requests[id].status == Pending <==>
              Voters(s.tables.votes, id, false) == {} && |Voters(s.tables.votes, id, true)| < need
  {
    assert NotLost(s, id) && SoundStatus(s, id);
    FixedNeedIsLast(s.ballots, id, need);
    assert Voters(s.tables.votes, id, true) == CastBy(s.ballots, id, true);
    assert Voters(s.tables.votes, id, false) == CastBy(s.ballots, id, false);
    if id in s.grants {
      assert SoundGrant(s.ballots, id, s.grants[id]);
      CastByPrefix(s.ballots, s.grants[id].at, id, true);
      CastByPrefix(s.ballots, s.grants[id].at, id, false);
    }
  }

  /** Whatever is edited meanwhile: as long as every rule that readings from the run could match for the request
      asks for `need` approvals, a quiet request is pending exactly while it has neither a denial nor that many. */
  lemma NoLostDecisionWhileNeedHolds(setup: Setup, before: seq<Action>, after: seq<Action>, id: int, need: int)
    requires NoCalls(before) && need >= 1
    requires var s := Run(setup, Run(setup, EMPTY, before), after);
             && id in s.tables.requests && !VoteInFlight(s, id)
             && forall rule | Matched(setup, Configs(setup, Run(setup, EMPTY, before), after), s.tables, id, rule) ::
                  (if rule.Some? then rule.value.requiredApprovals else 1) == need
    ensures var s := Run(setup, Run(setup, EMPTY, before), after);
            s.tables.requests[id].status == Pending <==>
              Voters(s.tables.votes, id, false) == {} && |Voters(s.tables.votes, id, true)| < need
  {
    var s0 := Run(setup, EMPTY, before);
    var s := Run(setup, s0, after);
    var seen := Configs(setup, s0, after);
    Reachable(setup, before);
    RunKeepsInv(setup, s0, after);
    TracedAfterSetUp(setup, before, after);
    forall i | 0 <= i < |s.ballots| && s.ballots[i].request == id ensures s.ballots[i].required == need {
      assert TracedBallot(setup, seen, s, s.ballots[i]);
    }
    if id in s.grants {
      assert MatchedNeed(setup, seen, s.tables, id, s.grants[id].required);
    }
    NoLostDecisionAtThreshold(setup, s, id, need);
  }

  lemma GoverningNeed(setup: Setup, s: System, req: Request)
    requires ThresholdsPositive(s.tables.matrix)
    ensures Threshold(GoverningRule(setup, s.tables, req)) >= 1
  {
    if setup.hasMatrix && req.targetId in s.tables.targets {
      var target := s.tables.targets[req.targetId];
      BestRuleIsMostSpecific(s.tables.matrix, target.kind, target.tier, RequesterGroups(setup, s.tables, req.userId));
    }
  }

  /** Once set-up is over and rules, targets and memberships stay as they are, a quiet request is pending exactly
      while it has neither a denial nor as many approvals as the rule that governs it requires. */
  lemma NoLostDecisionFixedRule(setup: Setup, before: seq<Action>, after: seq<Action>, id: int)
    requires NoCalls(before) && AllKeepConfig(after)
    requires var s := Run(setup, Run(setup, EMPTY, before), after); id in s.tables.requests && !VoteInFlight(s, id)
    ensures var s := Run(setup, Run(setup, EMPTY, before), after);
            s.tables.requests[id].status == Pending <==>
              && Voters(s.tables.votes, id, false) == {}
              && var rule := GoverningRule(setup, s.tables, s.tables.requests[id]);
                 |Voters(s.tables.votes, id, true)| < if rule.Some? then rule.value.requiredApprovals else 1
  {
    var s0 := Run(setup, EMPTY, before);
    var s := Run(setup, s0, after);
    Reachable(setup, before);
    RunKeepsInv(setup, s0, after);
    OneConfig(setup, s0, after);
    GoverningNeed(setup, s, s.tables.requests[id]);
    forall rule | Matched(setup, Configs(setup, s0, after), s.tables, id, rule)
      ensures rule == GoverningRule(setup, s.tables, s.tables.requests[id])
    {
      MatchedIsGoverning(setup, s.tables, id, rule);
    }
    NoLostDecisionWhileNeedHolds(setup, before, after, id, Threshold(GoverningRule(setup, s.tables, s.tables.requests[id])));
  }

  /** The people whose approvals a grant's tally counted. */
  function Grantors(s: System, id: int): set<int>
    requires id in s.grants && s.grants[id].at <= |s.ballots|
  {
    CastBy(s.ballots[..s.grants[id].at], id, true)
  }

  /** The tally behind a grant: enough distinct approvers, none of them the requester, and nobody against. */
  ghost predicate Tallied(s: System, id: int) {
    && id in s.tables.requests && id in s.grants
    && s.tables.requests[id].status != Pending
    && s.grants[id].at <= |s.ballots|
    && |Grantors(s, id)| >= s.grants[id].required >= 1
    && CastBy(s.ballots[..s.grants[id].at], id, false) == {}
    && forall a | a in Grantors(s, id) ::
         a != s.tables.requests[id].userId && (id, a) in s.tables.votes && s.tables.votes[(id, a)].approve
  }

  lemma GrantsAreTallied(setup: Setup, s: System, id: int)
    requires Inv(setup, s)
    requires id in s.grants || (id in s.tables.requests && s.tables.requests[id].status == Approved)
    ensures Tallied(s, id)
  {
    assert SoundStatus(s, id);
    assert SoundGrant(s.ballots, id, s.grants[id]);
    CastByPrefix(s.ballots, s.grants[id].at, id, true);
    forall a | a in Grantors(s, id)
      ensures a != s.tables.requests[id].userId && (id, a) in s.tables.votes && s.tables.votes[(id, a)].approve
    {
      assert a in Voters(s.tables.votes, id, true);
      var i :| 0 <= i < |s.ballots| && s.ballots[i].request == id && s.ballots[i].approve && s.ballots[i].approver == a;
      assert SoundBallot(setup, s.tables, s.ballots[i]);
    }
  }

  /** One of the first n recorded votes is this approver's approval, and the call that cast it was authorized by a
      rule matched for the request, on groups its approver had and the role it was made with. */
  ghost predicate AuthorizedApproval(setup: Setup, seen: set<Config>, s: System, id: int, approver: int, n: nat) {
    exists i | 0 <= i < |s.ballots| && i < n ::
      && s.ballots[i].request == id && s.ballots[i].approver == approver && s.ballots[i].approve
      && TracedBallot(setup, seen, s, s.ballots[i])
  }

  lemma CountedIsAuthorized(setup: Setup, seen: set<Config>, s: System, id: int, a: int)
    requires Traced(setup, seen, s) && id in s.grants && s.grants[id].at <= |s.ballots| && a in Grantors(s, id)
    ensures AuthorizedApproval(setup, seen, s, id, a, s.grants[id].at)
  {
    var counted := s.ballots[..s.grants[id].at];
    var i :| 0 <= i < |counted| && counted[i].request == id && counted[i].approve && counted[i].approver == a;
    assert counted[i] == s.ballots[i];
    assert TracedBallot(setup, seen, s, s.ballots[i]);
  }

  /** A request that is, or ever was, approved got there on a tally with no denial and at least as many distinct
      approvers, at least one and none the requester, as a rule matched for it requires; and each of them was
      authorized by a rule matched for it, from readings of tables that stood at some moment of the run. */
  lemma ApprovalSoundness(setup: Setup, before: seq<Action>, after: seq<Action>, id: int)
    requires NoCalls(before)
    requires var s := Run(setup, Run(setup, EMPTY, before), after);
             id in s.grants || (id in s.tables.requests && s.tables.requests[id].status == Approved)
    ensures var s0 := Run(setup, EMPTY, before);
            var s := Run(setup, s0, after);
            var seen := Configs(setup, s0, after);
            && Tallied(s, id)
            && (exists rule :: Matched(setup, seen, s.tables, id, rule)
                  && s.grants[id].required == if rule.Some? then rule.value.requiredApprovals else 1)
            && forall a | a in Grantors(s, id) ::
                 exists i | 0 <= i < |s.ballots| && i < s.grants[id].at ::
                   var b := s.ballots[i];
                   && b.request == id && b.approver == a && b.approve && b.caller in s.calls
                   && s.calls[b.caller].id == id && s.calls[b.caller].approver == a && s.calls[b.caller].approve
                   && Matched(setup, seen, s.tables, id, b.warrant.rule)
                   && if b.warrant.rule.Some? && b.warrant.rule.value.approverGroups != [] && setup.hasGroups
                      then exists g, c :: g in b.warrant.rule.value.approverGroups && c in seen
                             && a in c.memberships && g in c.memberships[a]
                      else s.calls[b.caller].role == "admin"
  {
    var s0 := Run(setup, EMPTY, before);
    var s := Run(setup, s0, after);
    var seen := Configs(setup, s0, after);
    Reachable(setup, before);
    RunKeepsInv(setup, s0, after);
    TracedAfterSetUp(setup, before, after);
    GrantsAreTallied(setup, s, id);
    NeedMeans(setup, seen, s.tables, id, s.grants[id].required);
    forall a | a in Grantors(s, id)
      ensures exists i | 0 <= i < |s.ballots| && i < s.grants[id].at ::
                var b := s.ballots[i];
                && b.request == id && b.approver == a && b.approve && b.caller in s.calls
                && s.calls[b.caller].id == id && s.calls[b.caller].approver == a && s.calls[b.caller].approve
                && Matched(setup, seen, s.tables, id, b.warrant.rule)
                && if b.warrant.rule.Some? && b.warrant.rule.value.approverGroups != [] && setup.hasGroups
                   then exists g, c :: g in b.warrant.rule.value.approverGroups && c in seen
                          && a in c.memberships && g in c.memberships[a]
                   else s.calls[b.caller].role == "admin"
    {
      CountedIsAuthorized(setup, seen, s, id, a);
      var i :| 0 <= i < |s.ballots| && i < s.grants[id].at && s.ballots[i].request == id && s.ballots[i].approver == a
               && s.ballots[i].approve && TracedBallot(setup, seen, s, s.ballots[i]);
      WarrantMeans(setup, seen, s.tables, id, a, s.ballots[i].warrant);
    }
  }

  lemma NeedMeans(setup: Setup, seen: set<Config>, t: Tables, id: int, need: int)
    requires MatchedNeed(setup, seen, t, id, need)
    ensures exists rule :: Matched(setup, seen, t, id, rule) && need == if rule.Some? then rule.value.requiredApprovals else 1
  {
    var rule :| Matched(setup, seen, t, id, rule) && need == Threshold(rule);
  }

  /** Who a warrant lets approve, over groups, memberships and role. */
  lemma WarrantMeans(setup: Setup, seen: set<Config>, t: Tables, id: int, approver: int, w: Warrant)
    requires TracedWarrant(setup, seen, t, id, approver, w)
    ensures if w.rule.Some? && w.rule.value.approverGroups != [] && setup.hasGroups
            then exists g, c :: g in w.rule.value.approverGroups && c in seen && approver in c.memberships && g in c.memberships[approver]
            else w.role == "admin"
  {
    if w.rule.Some? && w.rule.value.approverGroups != [] && setup.hasGroups {
      var c :| c in seen && GroupsIn(c, approver) == w.memberOf;
      var j :| 0 <= j < |w.memberOf| && w.memberOf[j] in w.rule.value.approverGroups;
      var g := w.memberOf[j];
      assert g in w.rule.value.approverGroups && c in seen && approver in c.memberships && g in c.memberships[approver];
    }
  }

  lemma AuthorizedNow(setup: Setup, s: System, id: int, approver: int, n: nat)
    requires id in s.tables.requests && AuthorizedApproval(setup, {ConfigOf(s.tables)}, s, id, approver, n)
    ensures var rule := GoverningRule(setup, s.tables, s.tables.requests[id]);
            exists tid | tid in s.calls ::
              && s.calls[tid].id == id && s.calls[tid].approver == approver && s.calls[tid].approve
              && if rule.Some? && rule.value.approverGroups != [] && setup.hasGroups
                 then exists g :: g in rule.value.approverGroups
                        && approver in s.tables.memberships && g in s.tables.memberships[approver]
                 else s.calls[tid].role == "admin"
  {
    var i :| 0 <= i < |s.ballots| && i < n && s.ballots[i].request == id && s.ballots[i].approver == approver
             && s.ballots[i].approve && TracedBallot(setup, {ConfigOf(s.tables)}, s, s.ballots[i]);
    var w := s.ballots[i].warrant;
    MatchedIsGoverning(setup, s.tables, id, w.rule);
    WarrantMeans(setup, {ConfigOf(s.tables)}, s.tables, id, approver, w);
    assert s.calls[s.ballots[i].caller].id == id;
  }

  /** Once set-up is over and rules, targets and memberships stay as they are: an approval rests on at least as many
      distinct approvers as the rule that governs the request requires, at least one without a rule; each of them is in
      an approver group of that rule if it has any and memberships are wired, and otherwise called Decide as "admin". */
  lemma ApprovalSoundnessFixedRule(setup: Setup, before: seq<Action>, after: seq<Action>, id: int)
    requires NoCalls(before) && AllKeepConfig(after)
    requires var s := Run(setup, Run(setup, EMPTY, before), after);
             id in s.grants || (id in s.tables.requests && s.tables.requests[id].status == Approved)
    ensures var s := Run(setup, Run(setup, EMPTY, before), after);
            && Tallied(s, id)
            && var rule := GoverningRule(setup, s.tables, s.tables.requests[id]);
               && |Grantors(s, id)| >= (if rule.Some? then rule.value.requiredApprovals else 1) == s.grants[id].required
               && forall a | a in Grantors(s, id) ::
                    exists tid | tid in s.calls ::
                      && s.calls[tid].id == id && s.calls[tid].approver == a && s.calls[tid].approve
                      && if rule.Some? && rule.value.approverGroups != [] && setup.hasGroups
                         then exists g :: g in rule.value.approverGroups
                                && a in s.tables.memberships && g in s.tables.memberships[a]
                         else s.calls[tid].role == "admin"
  {
    var s0 := Run(setup, EMPTY, before);
    var s := Run(setup, s0, after);
    var seen := Configs(setup, s0, after);
    Reachable(setup, before);
    RunKeepsInv(setup, s0, after);
    TracedAfterSetUp(setup, before, after);
    GrantsAreTallied(setup, s, id);
    OneConfig(setup, s0, after);
    var rule :| Matched(setup, seen, s.tables, id, rule) && s.grants[id].required == Threshold(rule);
    MatchedIsGoverning(setup, s.tables, id, rule);
    forall a | a in Grantors(s, id)
      ensures var rule := GoverningRule(setup, s.tables, s.tables.requests[id]);
              exists tid | tid in s.calls ::
                && s.calls[tid].id == id && s.calls[tid].approver == a && s.calls[tid].approve
                && if rule.Some? && rule.value.approverGroups != [] && setup.hasGroups
                   then exists g :: g in rule.value.approverGroups && a in s.tables.memberships && g in s.tables.memberships[a]
                   else s.calls[tid].role == "admin"
    {
      CountedIsAuthorized(setup, seen, s, id, a);
      AuthorizedNow(setup, s, id, a, s.grants[id].at);
    }
  }

  /** The rule that governs a request, over the tables: the best one for the target's kind and tier and the requester's
      groups; none without a matrix. */
  lemma GoverningMeans(setup: Setup, t: Tables, req: Request)
    ensures GoverningRule(setup, t, req) ==
            if setup.hasMatrix && req.targetId in t.targets
            then BestRule(t.matrix, t.targets[req.targetId].kind, t.targets[req.targetId].tier,
                          if setup.hasGroups && req.userId in t.memberships then t.memberships[req.userId] else [])
            else None
  {
  }

  /** The only action that can turn a request approved is the last statement of a Decide whose tally
      counted no denial and enough approvals; no other action, and no administrative one, does. */
  lemma OnlyDecideApproves(setup: Setup, actions: seq<Action>, a: Action, id: int)
    requires var s := Run(setup, EMPTY, actions); NewlyApproved(s.tables, Apply(setup, s, a).tables, id)
    ensures var s := Run(setup, EMPTY, actions);
            && a.AdvanceCall? && a.tid in s.calls && s.calls[a.tid].id == id
            && s.calls[a.tid].phase.Counted?
            && s.calls[a.tid].phase.against == 0
            && s.calls[a.tid].phase.have >= s.calls[a.tid].phase.required >= 1
            && s.tables.requests[id].status == Pending
            && a.tid in s.tallied
            && Apply(setup, s, a).grants == s.grants[id := Grant(s.calls[a.tid].phase.required, s.tallied[a.tid])]
  {
    Reachable(setup, actions);
    var s := Run(setup, EMPTY, actions);
    if a.AdvanceCall? {
      assert SoundCall(setup, s, a.tid);
    }
  }

  function StatusRank(status: Status): nat {
    match status case Pending => 0 case Approved => 1 case Denied => 2
  }

  lemma StepOnlyAdvances(setup: Setup, s: System, a: Action, id: int)
    requires id in s.tables.requests
    ensures id in Apply(setup, s, a).tables.requests
    ensures StatusRank(Apply(setup, s, a).tables.requests[id].status) >= StatusRank(s.tables.requests[id].status)
  {
    if a.AdvanceCall? && a.tid in s.calls {
      assert Apply(setup, s, a).tables == Advance(setup, s.calls[a.tid], s.tables, a.now).1;
    }
  }

  /** From any state and through any actions (Revoke, RenewApproval and GrantSudo included) a request
      never returns to pending, and denied is the end. */
  lemma {:induction false} StatusOnlyAdvances(setup: Setup, s: System, actions: seq<Action>, id: int)
    requires id in s.tables.requests
    ensures id in Run(setup, s, actions).tables.requests
    ensures StatusRank(Run(setup, s, actions).tables.requests[id].status) >= StatusRank(s.tables.requests[id].status)
    decreases |actions|
  {
    if actions != [] {
      StepOnlyAdvances(setup, s, actions[0], id);
      StatusOnlyAdvances(setup, Apply(setup, s, actions[0]), actions[1..], id);
    }
  }

  /** A request that ends denied either holds a denial or was approved and then revoked. */
  lemma DenialHasACause(setup: Setup, actions: seq<Action>, id: int)
    requires var s := Run(setup, EMPTY, actions); id in s.tables.requests && s.tables.requests[id].status == Denied
    ensures var s := Run(setup, EMPTY, actions); id in s.grants || Voters(s.tables.votes, id, false) != {}
  {
    Reachable(setup, actions);
    var s := Run(setup, EMPTY, actions);
    assert SoundStatus(s, id);
    assert Voters(s.tables.votes, id, false) == CastBy(s.ballots, id, false);
  }
}
