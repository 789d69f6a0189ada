/**
 Any number of Decide calls, one SQL statement at a time.  A call remembers only what its earlier
 statements returned (`Phase`); the tables may change between any two of its statements.  A run is a
 sequence of actions, so a theorem about every sequence is a theorem about every interleaving.

 `ballots`, `tallied` and `grants` are history: the accepted votes in insertion order, how many of them
 existed when a call ran its tally, and which call's UPDATE turned a request approved.
 */
module ApprovalMachine {
  import opened Option
  import opened ApprovalMatrix
  import opened ApprovalTables

  datatype DecideError = RequestNotFound | RequestClosed | SelfApproval | TargetNotFound | NotApprover | AlreadyDecided

  datatype Outcome = Failed(error: DecideError) | Reported(status: Status, have: int, need: int)

  /** What the authorization check looked at: the matched rule, and the approver's groups and role. */
  datatype Warrant = Warrant(rule: Option<MatrixRule>, memberOf: seq<int>, role: string)

  datatype Phase =
    | Started
    | Loaded(req: Request)
    | Located(req: Request, target: Target)
    | Grouped(req: Request, target: Target, requesterGroups: seq<int>)
    | Ruled(rule: Option<MatrixRule>)
    | Cleared(required: int, warrant: Warrant)
    | Recorded(required: int)
    | Counted(required: int, have: int, against: int)
    | Finished(outcome: Outcome)

  datatype Call = Call(id: int, approver: int, role: string, approve: bool, comment: string, phase: Phase)

  datatype Ballot = Ballot(request: int, approver: int, approve: bool, required: int, warrant: Warrant, caller: int)

  datatype Grant = Grant(required: int, at: nat)

  datatype System = System(
    tables: Tables,
    calls: map<int, Call>,
    ballots: seq<Ballot>,
    tallied: map<int, nat>,
    grants: map<int, Grant>)

  // ---------------------------------------------------------------- one call

  function Threshold(rule: Option<MatrixRule>): int {
    if rule.Some? then rule.value.requiredApprovals else 1
  }

  predicate Warranted(setup: Setup, w: Warrant) {
    if w.rule.Some? && w.rule.value.approverGroups != [] && setup.hasGroups
    then Meets(w.rule.value.approverGroups, w.memberOf)
    else w.role == "admin"
  }

  function RequesterGroups(setup: Setup, t: Tables, user: int): seq<int> {
    if setup.hasGroups then UserGroups(t, user) else []
  }

  /** The rule for a request, all of it read from the same tables. */
  function GoverningRule(setup: Setup, t: Tables, req: Request): Option<MatrixRule> {
    if setup.hasMatrix && req.targetId in t.targets then
      BestRule(t.matrix, t.targets[req.targetId].kind, t.targets[req.targetId].tier, RequesterGroups(setup, t, req.userId))
    else None
  }

  predicate MayApprove(setup: Setup, t: Tables, rule: Option<MatrixRule>, approver: int, role: string) {
    Warranted(setup, Warrant(rule, UserGroups(t, approver), role))
  }

  function Fail(c: Call, e: DecideError): Call {
    c.(phase := Finished(Failed(e)))
  }

  /** The next statement of a call, with the local decisions that follow it. */
  function Advance(setup: Setup, c: Call, t: Tables, now: int): (Call, Tables) {
    match c.phase
    case Started =>
      (if c.id !in t.requests then Fail(c, RequestNotFound)
       else if t.requests[c.id].status != Pending then Fail(c, RequestClosed)
       else if t.requests[c.id].userId == c.approver then Fail(c, SelfApproval)
       else c.(phase := Loaded(t.requests[c.id])), t)
    case Loaded(req) =>
      (if !setup.hasMatrix then c.(phase := Ruled(None))
       else if req.targetId !in t.targets then Fail(c, TargetNotFound)
       else c.(phase := Located(req, t.targets[req.targetId])), t)
    case Located(req, target) =>
      (c.(phase := Grouped(req, target, RequesterGroups(setup, t, req.userId))), t)
    case Grouped(req, target, groups) =>
      (c.(phase := Ruled(BestRule(t.matrix, target.kind, target.tier, groups))), t)
    case Ruled(rule) =>
      var w := Warrant(rule, UserGroups(t, c.approver), c.role);
      (if Warranted(setup, w) then c.(phase := Cleared(Threshold(rule), w)) else Fail(c, NotApprover), t)
    case Cleared(required, _) =>
      var inserted := InsertVote(t, c.id, c.approver, Vote(c.approve, c.comment, now));
      if inserted.None? then (Fail(c, AlreadyDecided), t) else (c.(phase := Recorded(required)), inserted.value)
    case Recorded(required) =>
      (c.(phase := Counted(required, |Voters(t.votes, c.id, true)|, |Voters(t.votes, c.id, false)|)), t)
    case Counted(required, have, against) =>
      var verdict := Verdict(required, have, against);
      (c.(phase := Finished(Reported(verdict, have, required))),
       if verdict == Pending then t else FinalizeRow(t, c.id, verdict, c.approver, now))
    case Finished(_) => (c, t)
  }

  function Verdict(required: int, have: int, against: int): Status {
    if against > 0 then Denied else if have >= required then Approved else Pending
  }

  // ---------------------------------------------------------------- the whole system

  datatype Action =
    | FileRequest(id: int, user: int, target: int, reason: string, ttl: int, sudo: bool, now: int)
    | BeginDecide(tid: int, id: int, approver: int, role: string, approve: bool, comment: string)
    | AdvanceCall(tid: int, now: int)
    | Revoke(id: int, revoker: int, now: int)
    | Renew(id: int, ttl: int, now: int)
    | SetSudo(id: int, granted: bool)
    | AddRule(rule: MatrixRule, ruleId: int)
    | ChangeRule(rule: MatrixRule)
    | DropRule(ruleId: int)
    | SetMemberships(user: int, groups: seq<int>)
    | SetTarget(targetId: int, row: Target)

  function AdvanceIn(setup: Setup, s: System, tid: int, now: int): System
    requires tid in s.calls
  {
    var c := s.calls[tid];
    var (c', t') := Advance(setup, c, s.tables, now);
    s.(tables := t',
       calls := s.calls[tid := c'],
       ballots := if c.phase.Cleared? && c'.phase.Recorded?
                  then s.ballots + [Ballot(c.id, c.approver, c.approve, c.phase.required, c.phase.warrant, tid)]
                  else s.ballots,
       tallied := if c.phase.Recorded? then s.tallied[tid := |s.ballots|] else s.tallied,
       grants := if c.phase.Counted? && tid in s.tallied && NewlyApproved(s.tables, t', c.id)
                 then s.grants[c.id := Grant(c.phase.required, s.tallied[tid])]
                 else s.grants)
  }

  predicate NewlyApproved(t: Tables, t': Tables, id: int) {
    id in t.requests && id in t'.requests && t.requests[id].status != Approved && t'.requests[id].status == Approved
  }

  /** An action that cannot happen leaves the system as it is. */
  function Apply(setup: Setup, s: System, a: Action): System {
    match a
    case FileRequest(id, user, target, reason, ttl, sudo, now) =>
      if id in s.tables.requests then s
      else s.(tables := InsertRequest(s.tables, id, user, target, reason, ttl, sudo, now))
    case BeginDecide(tid, id, approver, role, approve, comment) =>
      if tid in s.calls then s
      else s.(calls := s.calls[tid := Call(id, approver, role, approve, comment, Started)])
    case AdvanceCall(tid, now) => if tid in s.calls then AdvanceIn(setup, s, tid, now) else s
    case Revoke(id, revoker, now) => s.(tables := RevokeRow(s.tables, id, revoker, now))
    case Renew(id, ttl, now) => s.(tables := RenewRow(s.tables, id, ttl, now))
    case SetSudo(id, granted) => s.(tables := SetSudoRow(s.tables, id, granted))
    case AddRule(rule, ruleId) => s.(tables := s.tables.(matrix := CreateRule(s.tables.matrix, rule, ruleId)))
    case ChangeRule(rule) => s.(tables := s.tables.(matrix := UpdateRule(s.tables.matrix, rule)))
    case DropRule(ruleId) => s.(tables := s.tables.(matrix := DeleteRule(s.tables.matrix, ruleId)))
    case SetMemberships(user, groups) =>
      s.(tables := s.tables.(memberships := s.tables.memberships[user := groups]))
    case SetTarget(targetId, row) => s.(tables := s.tables.(targets := s.tables.targets[targetId := row]))
  }

  function Run(setup: Setup, s: System, actions: seq<Action>): System
    decreases |actions|
  {
    if actions == [] then s else Run(setup, Apply(setup, s, actions[0]), actions[1..])
  }

  const EMPTY := System(Tables(map[], map[], map[], [], map[]), map[], [], map[], map[])

  // ---------------------------------------------------------------- what the history says

  function CastBy(ballots: seq<Ballot>, id: int, approve: bool): set<int> {
    set i | 0 <= i < |ballots| && ballots[i].request == id && ballots[i].approve == approve :: ballots[i].approver
  }

  /** The threshold the most recently accepted vote on a request was measured against. */
  function LastNeed(ballots: seq<Ballot>, id: int): int {
    if ballots == [] then 1
    else if ballots[|ballots| - 1].request == id then ballots[|ballots| - 1].required
    else LastNeed(ballots[..|ballots| - 1], id)
  }

  predicate Decisive(ballots: seq<Ballot>, id: int) {
    CastBy(ballots, id, false) != {} || |CastBy(ballots, id, true)| >= LastNeed(ballots, id)
  }

  /** Some call on the request is past its vote insert and has not returned. */
  predicate VoteInFlight(s: System, id: int) {
    exists tid | tid in s.calls :: s.calls[tid].id == id && (s.calls[tid].phase.Recorded? || s.calls[tid].phase.Counted?)
  }

  // ---------------------------------------------------------------- the invariant

  /** The table and the history tell the same story about who voted how. */
  ghost predicate VotesMatch(s: System) {
    forall id, approve :: Voters(s.tables.votes, id, approve) == CastBy(s.ballots, id, approve)
  }

  predicate SoundBallot(setup: Setup, t: Tables, b: Ballot) {
    b.request in t.requests && t.requests[b.request].userId != b.approver && b.required >= 1 && Warranted(setup, b.warrant)
  }

  /** A call that has read its request and may still vote. */
  predicate Underway(p: Phase) {
    !p.Started? && !p.Finished?
  }

  predicate SoundCall(setup: Setup, s: System, tid: int)
    requires tid in s.calls
  {
    var c := s.calls[tid];
    && (Underway(c.phase) ==> c.id in s.tables.requests && s.tables.requests[c.id].userId != c.approver)
    && (c.phase.Ruled? ==> c.phase.rule.Some? ==> c.phase.rule.value.requiredApprovals >= 1)
    && (c.phase.Cleared? ==> c.phase.required >= 1 && Warranted(setup, c.phase.warrant))
    && (c.phase.Recorded? ==> c.phase.required >= 1)
    && (c.phase.Counted? ==>
          && c.phase.required >= 1
          && tid in s.tallied && s.tallied[tid] <= |s.ballots|
          && c.phase.have == |CastBy(s.ballots[..s.tallied[tid]], c.id, true)|
          && c.phase.against == |CastBy(s.ballots[..s.tallied[tid]], c.id, false)|)
  }

  /** The tally behind an approval: no denial, and at least one and at least `required` distinct approvers. */
  predicate SoundGrant(ballots: seq<Ballot>, id: int, g: Grant) {
    && g.required >= 1
    && g.at <= |ballots|
    && CastBy(ballots[..g.at], id, false) == {}
    && |CastBy(ballots[..g.at], id, true)| >= g.required
  }

  predicate SoundStatus(s: System, id: int)
    requires id in s.tables.requests
  {
    match s.tables.requests[id].status
    case Pending => id !in s.grants
    case Approved => id in s.grants
    case Denied => id in s.grants || CastBy(s.ballots, id, false) != {}
  }

  predicate WillFinalize(c: Call, need: int) {
    || (c.phase.Recorded? && c.phase.required == need)
    || (c.phase.Counted? && Verdict(c.phase.required, c.phase.have, c.phase.against) != Pending)
  }

  /** A decided but pending request has a call that is going to finalize it. */
  ghost predicate NotLost(s: System, id: int)
    requires id in s.tables.requests
  {
    s.tables.requests[id].status == Pending && Decisive(s.ballots, id) ==>
      exists tid | tid in s.calls :: s.calls[tid].id == id && WillFinalize(s.calls[tid], LastNeed(s.ballots, id))
  }

  ghost predicate Inv(setup: Setup, s: System) {
    && VotesMatch(s)
    && ThresholdsPositive(s.tables.matrix)
    && (forall i | 0 <= i < |s.ballots| :: SoundBallot(setup, s.tables, s.ballots[i]))
    && (forall tid | tid in s.calls :: SoundCall(setup, s, tid))
    && (forall id | id in s.grants :: id in s.tables.requests && SoundGrant(s.ballots, id, s.grants[id]))
    && (forall id | id in s.tables.requests :: SoundStatus(s, id))
    && (forall id | id in s.tables.requests :: NotLost(s, id))
  }
}
