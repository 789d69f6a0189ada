/**
 The approval workflow as the service runs it: a database whose tables its statements change in
 place, and the operations as sequences of such statements.  `Decide` is proved to be one call of
 the interleaved machine run without interruption; what an uninterrupted call achieves is proved
 about that run.
 */
module ApprovalService {
  import opened Option
  import opened ApprovalMatrix
  import opened ApprovalTables
  import opened ApprovalMachine
  import ApprovalTheorems

  // ---------------------------------------------------------------- a call nobody interrupts

  function StepsLeft(p: Phase): nat {
    match p
    case Started => 8 case Loaded(_) => 7 case Located(_, _) => 6 case Grouped(_, _, _) => 5 case Ruled(_) => 4
    case Cleared(_, _) => 3 case Recorded(_) => 2 case Counted(_, _, _) => 1 case Finished(_) => 0
  }

  /** A call from where it stands to its return; its two timestamps are read when it votes and when it finalizes. */
  function Alone(setup: Setup, c: Call, t: Tables, votedAt: int, decidedAt: int): (Outcome, Tables)
    decreases StepsLeft(c.phase)
  {
    if c.phase.Finished? then (c.phase.outcome, t)
    else
      var (c', t') := Advance(setup, c, t, if c.phase.Counted? then decidedAt else votedAt);
      Alone(setup, c', t', votedAt, decidedAt)
  }

  /** The refusals, in the order they are tried. */
  function Refusal(setup: Setup, t: Tables, id: int, approver: int, role: string): Option<DecideError> {
    if id !in t.requests then Some(RequestNotFound)
    else if t.requests[id].status != Pending then Some(RequestClosed)
    else if t.requests[id].userId == approver then Some(SelfApproval)
    else if setup.hasMatrix && t.requests[id].targetId !in t.targets then Some(TargetNotFound)
    else if !MayApprove(setup, t, GoverningRule(setup, t, t.requests[id]), approver, role) then Some(NotApprover)
    else if (id, approver) in t.votes then Some(AlreadyDecided)
    else None
  }

  /** The reading and authorizing part of an uninterrupted call. */
  lemma AloneUpToVote(setup: Setup, c: Call, t: Tables, votedAt: int, decidedAt: int)
    requires c.phase.Started?
    ensures var refusal := Refusal(setup, t, c.id, c.approver, c.role);
            && (refusal.Some? ==> Alone(setup, c, t, votedAt, decidedAt) == (Failed(refusal.value), t))
            && (refusal.None? ==>
                  && c.id in t.requests && (setup.hasMatrix ==> t.requests[c.id].targetId in t.targets)
                  && var need := Threshold(GoverningRule(setup, t, t.requests[c.id]));
                     var votes := t.votes[(c.id, c.approver) := Vote(c.approve, c.comment, votedAt)];
                     Alone(setup, c, t, votedAt, decidedAt) ==
                     Alone(setup, c.(phase := Recorded(need)), t.(votes := votes), votedAt, decidedAt))
  {
    if c.id in t.requests && t.requests[c.id].status == Pending && t.requests[c.id].userId != c.approver {
      var req := t.requests[c.id];
      var c1 := c.(phase := Loaded(req));
      AloneStep(setup, c, t, votedAt, decidedAt);
      AloneStep(setup, c1, t, votedAt, decidedAt);
      if !setup.hasMatrix {
        AloneFromRule(setup, c.(phase := Ruled(None)), t, votedAt, decidedAt);
      } else if req.targetId in t.targets {
        var c2 := c.(phase := Located(req, t.targets[req.targetId]));
        AloneStep(setup, c2, t, votedAt, decidedAt);
        var c3 := c.(phase := Grouped(req, c2.phase.target, RequesterGroups(setup, t, req.userId)));
        AloneStep(setup, c3, t, votedAt, decidedAt);
        AloneFromRule(setup, c.(phase := Ruled(GoverningRule(setup, t, req))), t, votedAt, decidedAt);
      }
    }
  }

  lemma AloneStep(setup: Setup, c: Call, t: Tables, votedAt: int, decidedAt: int)
    requires !c.phase.Finished?
    ensures var (c', t') := Advance(setup, c, t, if c.phase.Counted? then decidedAt else votedAt);
            && Alone(setup, c, t, votedAt, decidedAt) == Alone(setup, c', t', votedAt, decidedAt)
            && (c'.phase.Finished? ==> Alone(setup, c, t, votedAt, decidedAt) == (c'.phase.outcome, t'))
  {
  }

  lemma AloneFromRule(setup: Setup, c: Call, t: Tables, votedAt: int, decidedAt: int)
    requires c.phase.Ruled?
    ensures Alone(setup, c, t, votedAt, decidedAt) ==
            if !MayApprove(setup, t, c.phase.rule, c.approver, c.role) then (Failed(NotApprover), t)
            else if (c.id, c.approver) in t.votes then (Failed(AlreadyDecided), t)
            else Alone(setup, c.(phase := Recorded(Threshold(c.phase.rule))),
                       t.(votes := t.votes[(c.id, c.approver) := Vote(c.approve, c.comment, votedAt)]), votedAt, decidedAt)
  {
    AloneStep(setup, c, t, votedAt, decidedAt);
    var c1 := Advance(setup, c, t, votedAt).0;
    if c1.phase.Cleared? {
      AloneStep(setup, c1, t, votedAt, decidedAt);
    }
  }

  /** Tally and finalize in one go. */
  function Settle(c: Call, need: int, t: Tables, decidedAt: int): (Outcome, Tables) {
    var have, against := |Voters(t.votes, c.id, true)|, |Voters(t.votes, c.id, false)|;
    var status := Verdict(need, have, against);
    (Reported(status, have, need), if status == Pending then t else FinalizeRow(t, c.id, status, c.approver, decidedAt))
  }

  lemma AloneFromVote(setup: Setup, c: Call, t: Tables, votedAt: int, decidedAt: int)
    requires c.phase.Recorded?
    ensures Alone(setup, c, t, votedAt, decidedAt) == Settle(c, c.phase.required, t, decidedAt)
  {
    AloneStep(setup, c, t, votedAt, decidedAt);
    AloneStep(setup, Advance(setup, c, t, votedAt).0, t, votedAt, decidedAt);
  }

  /** What an uninterrupted Decide achieves: either the first applicable refusal and no change at all, or a
      recorded vote, a verdict that follows the votes now on record, and a row that carries that verdict. */
  lemma UndisturbedDecide(setup: Setup, c: Call, t: Tables, votedAt: int, decidedAt: int)
    requires c.phase.Started?
    ensures var (outcome, t') := Alone(setup, c, t, votedAt, decidedAt);
            match outcome
            case Failed(e) => t' == t && Refusal(setup, t, c.id, c.approver, c.role) == Some(e)
            case Reported(status, have, need) =>
              && Refusal(setup, t, c.id, c.approver, c.role) == None
              && c.id in t.requests && (setup.hasMatrix ==> t.requests[c.id].targetId in t.targets)
              && (var rule := GoverningRule(setup, t, t.requests[c.id]);
                  need == if rule.Some? then rule.value.requiredApprovals else 1)
              && t'.votes == t.votes[(c.id, c.approver) := Vote(c.approve, c.comment, votedAt)]
              && have == |Voters(t'.votes, c.id, true)|
              && (status == Denied <==> Voters(t'.votes, c.id, false) != {})
              && (status == Approved <==> Voters(t'.votes, c.id, false) == {} && have >= need)
              && t'.requests.Keys == t.requests.Keys
              && t'.requests[c.id].status == status
              && (forall id | id in t.requests && id != c.id :: t'.requests[id] == t.requests[id])
              && (status != Pending ==> t'.requests[c.id].decidedAt == Some(decidedAt)
                                        && t'.requests[c.id].approverId == Some(c.approver))
              && t'.requests[c.id].sudoGranted ==
                 if status == Approved then t.requests[c.id].sudoRequested else t.requests[c.id].sudoGranted
  {
    AloneUpToVote(setup, c, t, votedAt, decidedAt);
    if Refusal(setup, t, c.id, c.approver, c.role).None? {
      var need := Threshold(GoverningRule(setup, t, t.requests[c.id]));
      var t1 := t.(votes := t.votes[(c.id, c.approver) := Vote(c.approve, c.comment, votedAt)]);
      var c1 := c.(phase := Recorded(need));
      AloneFromVote(setup, c1, t1, votedAt, decidedAt);
    }
  }

  /** Whether a rule and the tables let someone approve, over groups, memberships and role. */
  lemma MayApproveMeans(setup: Setup, t: Tables, rule: Option<MatrixRule>, approver: int, role: string)
    ensures MayApprove(setup, t, rule, approver, role) <==>
            if rule.Some? && rule.value.approverGroups != [] && setup.hasGroups
            then exists g :: g in rule.value.approverGroups && approver in t.memberships && g in t.memberships[approver]
            else role == "admin"
  {
    if rule.Some? {
      MeetsMeans(rule.value.approverGroups, UserGroups(t, approver));
    }
  }

  /** When an undisturbed Decide fails, and how, over the rows it reads: the request must be there, pending and not the
      approver's own, its target known where there is a matrix, the approver in one of the governing rule's approver
      groups or, without such groups, an "admin"; and there must be no earlier vote of the approver's. */
  lemma RefusedExactly(setup: Setup, c: Call, t: Tables, votedAt: int, decidedAt: int)
    requires c.phase.Started?
    ensures var outcome := Alone(setup, c, t, votedAt, decidedAt).0;
            var known := c.id in t.requests;
            var open := known && t.requests[c.id].status == Pending;
            var others := open && t.requests[c.id].userId != c.approver;
            var placed := others && (setup.hasMatrix ==> t.requests[c.id].targetId in t.targets);
            var entitled := placed &&
              var rule := GoverningRule(setup, t, t.requests[c.id]);
              if rule.Some? && rule.value.approverGroups != [] && setup.hasGroups
              then exists g :: g in rule.value.approverGroups && c.approver in t.memberships && g in t.memberships[c.approver]
              else c.role == "admin";
            && (outcome == Failed(RequestNotFound) <==> !known)
            && (outcome == Failed(RequestClosed) <==> known && !open)
            && (outcome == Failed(SelfApproval) <==> open && !others)
            && (outcome == Failed(TargetNotFound) <==> others && !placed)
            && (outcome == Failed(NotApprover) <==> placed && !entitled)
            && (outcome == Failed(AlreadyDecided) <==> entitled && (c.id, c.approver) in t.votes)
            && (outcome.Reported? <==> entitled && (c.id, c.approver) !in t.votes)
  {
    UndisturbedDecide(setup, c, t, votedAt, decidedAt);
    if c.id in t.requests {
      MayApproveMeans(setup, t, GoverningRule(setup, t, t.requests[c.id]), c.approver, c.role);
    }
  }

  // ---------------------------------------------------------------- the database

  /** One row of "SELECT approve, COUNT(*) ... GROUP BY approve". */
  type TallyRow = (int, nat)

  /** Each vote value that occurs has one row carrying its count, in some order. */
  ghost predicate GroupedRows(rows: seq<TallyRow>, approvals: nat, denials: nat) {
    && (forall i | 0 <= i < |rows| :: rows[i] == (1, approvals) || rows[i] == (0, denials))
    && (forall i, j | 0 <= i < j < |rows| :: rows[i].0 != rows[j].0)
    && (approvals > 0 ==> (1, approvals) in rows)
    && (denials > 0 ==> (0, denials) in rows)
  }

  class Database {
    var tables: Tables

    constructor (tables: Tables)
      ensures this.tables == tables
    {
      this.tables := tables;
    }

    method Insert(id: int, user: int, target: int, reason: string, ttl: int, sudo: bool, now: int)
      modifies this
      ensures tables == InsertRequest(old(tables), id, user, target, reason, ttl, sudo, now)
    {
      tables := InsertRequest(tables, id, user, target, reason, ttl, sudo, now);
    }

    /** False, and nothing stored, when the UNIQUE key is taken. */
    method RecordVote(id: int, approver: int, v: Vote) returns (ok: bool)
      modifies this
      ensures ok == InsertVote(old(tables), id, approver, v).Some?
      ensures tables == if ok then InsertVote(old(tables), id, approver, v).value else old(tables)
    {
      var inserted := InsertVote(tables, id, approver, v);
      ok := inserted.Some?;
      if ok {
        tables := inserted.value;
      }
    }

    method CountVotes(id: int) returns (rows: seq<TallyRow>)
      ensures GroupedRows(rows, |Voters(tables.votes, id, true)|, |Voters(tables.votes, id, false)|)
    {
      var approvals, denials := |Voters(tables.votes, id, true)|, |Voters(tables.votes, id, false)|;
      rows := if denials > 0 then [(0, denials)] else [];
      if approvals > 0 {
        rows := rows + [(1, approvals)];
      }
    }

    method Finalize(id: int, status: Status, approver: int, now: int)
      modifies this
      ensures tables == FinalizeRow(old(tables), id, status, approver, now)
    {
      tables := FinalizeRow(tables, id, status, approver, now);
    }

    /** The three administrative updates report whether their WHERE clause hit a row. */
    method Revoke(id: int, revoker: int, now: int) returns (hit: bool)
      modifies this
      ensures hit == (id in old(tables).requests && old(tables).requests[id].status == Approved)
      ensures tables == RevokeRow(old(tables), id, revoker, now)
    {
      hit := id in tables.requests && tables.requests[id].status == Approved;
      tables := RevokeRow(tables, id, revoker, now);
    }

    method Renew(id: int, ttl: int, now: int) returns (hit: bool)
      modifies this
      ensures hit == (id in old(tables).requests && old(tables).requests[id].status == Approved)
      ensures tables == RenewRow(old(tables), id, ttl, now)
    {
      hit := id in tables.requests && tables.requests[id].status == Approved;
      tables := RenewRow(tables, id, ttl, now);
    }

    method SetSudo(id: int, granted: bool)
      modifies this
      ensures tables == SetSudoRow(old(tables), id, granted)
    {
      tables := SetSudoRow(tables, id, granted);
    }
  }

  // ---------------------------------------------------------------- the service

  class Service {
    const db: Database
    const setup: Setup

    constructor (db: Database, setup: Setup)
      ensures this.db == db && this.setup == setup
    {
      this.db, this.setup := db, setup;
    }

    /** The two counters, whatever order the grouped rows arrive in. */
    method Tally(rows: seq<TallyRow>, ghost have: nat, ghost against: nat) returns (approvals: nat, denials: nat)
      requires GroupedRows(rows, have, against)
      ensures approvals == have && denials == against
    {
      approvals, denials := 0, 0;
      for i := 0 to |rows|
        invariant approvals == if (1, have) in rows[..i] then have else 0
        invariant denials == if (0, against) in rows[..i] then against else 0
      {
        assert rows[..i + 1] == rows[..i] + [rows[i]];
        if rows[i].0 == 1 {
          approvals := rows[i].1;
        } else {
          denials := rows[i].1;
        }
      }
      assert rows[..|rows|] == rows;
    }

    /** The target row, the requester's groups and the matching rule; not found when the target is missing. */
    method LookUpRule(req: Request) returns (found: bool, rule: Option<MatrixRule>)
      ensures found == (setup.hasMatrix ==> req.targetId in db.tables.targets)
      ensures found ==> rule == GoverningRule(setup, db.tables, req)
    {
      if !setup.hasMatrix {
        return true, None;
      }
      if req.targetId !in db.tables.targets {
        return false, None;
      }
      var target := db.tables.targets[req.targetId];
      var requesterGroups := RequesterGroups(setup, db.tables, req.userId);
      rule := FindRule(db.tables.matrix, target.kind, target.tier, requesterGroups);
      found := true;
    }

    method Authorize(rule: Option<MatrixRule>, approver: int, role: string) returns (ok: bool)
      ensures ok == MayApprove(setup, db.tables, rule, approver, role)
      ensures ok <==>
              if rule.Some? && rule.value.approverGroups != [] && setup.hasGroups
              then exists g :: g in rule.value.approverGroups && approver in db.tables.memberships
                     && g in db.tables.memberships[approver]
              else role == "admin"
    {
      MayApproveMeans(setup, db.tables, rule, approver, role);
      if rule.Some? && rule.value.approverGroups != [] && setup.hasGroups {
        ok := AnyIntersection(rule.value.approverGroups, UserGroups(db.tables, approver));
      } else {
        ok := role == "admin";
      }
    }

    method CountAndFinalize(ghost c: Call, id: int, approver: int, required: int, decidedAt: int) returns (outcome: Outcome)
      requires c.id == id && c.approver == approver
      modifies db
      ensures (outcome, db.tables) == Settle(c, required, old(db.tables), decidedAt)
    {
      var rows := db.CountVotes(id);
      var approvals, denials := Tally(rows, |Voters(db.tables.votes, id, true)|, |Voters(db.tables.votes, id, false)|);
      var status := Pending;
      if denials > 0 {
        db.Finalize(id, Denied, approver, decidedAt);
        status := Denied;
      } else if approvals >= required {
        db.Finalize(id, Approved, approver, decidedAt);
        status := Approved;
      }
      outcome := Reported(status, approvals, required);
    }

    method Decide(id: int, approver: int, role: string, approve: bool, comment: string, votedAt: int, decidedAt: int)
      returns (outcome: Outcome)
      modifies db
      ensures (outcome, db.tables) ==
              Alone(setup, Call(id, approver, role, approve, comment, Started), old(db.tables), votedAt, decidedAt)
    {
      ghost var start := Call(id, approver, role, approve, comment, Started);
      AloneUpToVote(setup, start, db.tables, votedAt, decidedAt);
      if id !in db.tables.requests {
        return Failed(RequestNotFound);
      }
      var req := db.tables.requests[id];
      if req.status != Pending {
        return Failed(RequestClosed);
      }
      if req.userId == approver {
        return Failed(SelfApproval);
      }
      var found, rule := LookUpRule(req);
      if !found {
        return Failed(TargetNotFound);
      }
      var required := Threshold(rule);
      var cleared := Authorize(rule, approver, role);
      if !cleared {
        return Failed(NotApprover);
      }
      var ok := db.RecordVote(id, approver, Vote(approve, comment, votedAt));
      if !ok {
        return Failed(AlreadyDecided);
      }
      ghost var voted := start.(phase := Recorded(required));
      AloneFromVote(setup, voted, db.tables, votedAt, decidedAt);
      outcome := CountAndFinalize(voted, id, approver, required, decidedAt);
    }

    /** A new request is pending, with the default lifetime when none is asked for. */
    method Create(id: int, user: int, target: int, reason: string, ttl: int, sudo: bool, now: int)
      requires id !in db.tables.requests
      modifies db
      ensures db.tables == Apply(setup, EMPTY.(tables := old(db.tables)), FileRequest(id, user, target, reason, ttl, sudo, now)).tables
      ensures db.tables == old(db.tables).(requests := old(db.tables).requests[
                id := Request(user, target, reason, Pending, None, now, None, if ttl <= 0 then 1800 else ttl, sudo, false)])
    {
      db.Insert(id, user, target, reason, ttl, sudo, now);
    }

    /** Revoking succeeds on approved requests only, and denies exactly that request. */
    method Revoke(id: int, revoker: int, now: int) returns (ok: bool)
      modifies db
      ensures ok == (id in old(db.tables).requests && old(db.tables).requests[id].status == Approved)
      ensures db.tables == Apply(setup, EMPTY.(tables := old(db.tables)), ApprovalMachine.Revoke(id, revoker, now)).tables
      ensures ok ==> db.tables == old(db.tables).(requests := old(db.tables).requests[
                id := old(db.tables).requests[id].(status := Denied, approverId := Some(revoker), decidedAt := Some(now))])
      ensures !ok ==> db.tables == old(db.tables)
    {
      ok := db.Revoke(id, revoker, now);
    }

    method RenewApproval(id: int, ttl: int, now: int) returns (ok: bool)
      modifies db
      ensures ok == (id in old(db.tables).requests && old(db.tables).requests[id].status == Approved)
      ensures db.tables == Apply(setup, EMPTY.(tables := old(db.tables)), Renew(id, ttl, now)).tables
      ensures ok ==> db.tables == old(db.tables).(requests := old(db.tables).requests[
                id := old(db.tables).requests[id].(decidedAt := Some(now), ttlSeconds := if ttl <= 0 then 28800 else ttl)])
      ensures !ok ==> db.tables == old(db.tables)
    {
      ok := db.Renew(id, ttl, now);
    }

    method GrantSudo(id: int, grant: bool) returns (ok: bool)
      modifies db
      ensures ok == (id in old(db.tables).requests && old(db.tables).requests[id].status == Approved)
      ensures db.tables == if ok then Apply(setup, EMPTY.(tables := old(db.tables)), SetSudo(id, grant)).tables else old(db.tables)
      ensures ok ==> db.tables == old(db.tables).(requests := old(db.tables).requests[
                id := old(db.tables).requests[id].(sudoGranted := grant)])
    {
      if id !in db.tables.requests || db.tables.requests[id].status != Approved {
        return false;
      }
      db.SetSudo(id, grant);
      ok := true;
    }
  }
}
