/**
 The rows the approval workflow reads and writes, and each SQL statement it issues as one atomic
 function on them.  Nothing here decides anything; the guards are the statements' WHERE clauses
 and the UNIQUE(request_id, approver_id) key of the vote table.
 */
module ApprovalTables {
  import opened Option
  import opened ApprovalMatrix

  datatype Status = Pending | Approved | Denied

  datatype Request = Request(
    userId: int,
    targetId: int,
    reason: string,
    status: Status,
    approverId: Option<int>,
    createdAt: int,
    decidedAt: Option<int>,
    ttlSeconds: int,
    sudoRequested: bool,
    sudoGranted: bool)

  datatype Vote = Vote(approve: bool, comment: string, decidedAt: int)

  datatype Target = Target(kind: string, tier: int)

  /** `votes` is keyed by (request, approver); `memberships` lists the groups of each user. */
  datatype Tables = Tables(
    requests: map<int, Request>,
    votes: map<(int, int), Vote>,
    targets: map<int, Target>,
    matrix: seq<MatrixRule>,
    memberships: map<int, seq<int>>)

  /** Which optional collaborators the service was given. */
  datatype Setup = Setup(hasMatrix: bool, hasGroups: bool)

  const DEFAULT_TTL := 1800
  const RENEWED_TTL := 28800

  function UserGroups(t: Tables, user: int): seq<int> {
    if user in t.memberships then t.memberships[user] else []
  }

  function InsertRequest(t: Tables, id: int, user: int, target: int, reason: string, ttl: int, sudo: bool, now: int): Tables
  {
    var r := Request(user, target, reason, Pending, None, now, None, if ttl <= 0 then DEFAULT_TTL else ttl, sudo, false);
    t.(requests := t.requests[id := r])
  }

  /** None when the key is already taken. */
  function InsertVote(t: Tables, id: int, approver: int, v: Vote): Option<Tables> {
    if (id, approver) in t.votes then None else Some(t.(votes := t.votes[(id, approver) := v]))
  }

  /** The approvers who voted one way on a request. */
  function Voters(votes: map<(int, int), Vote>, id: int, approve: bool): set<int> {
    set k | k in votes && k.0 == id && votes[k].approve == approve :: k.1
  }

  /** finalize: UPDATE ... WHERE id = ? AND status = 'pending'. */
  function FinalizeRow(t: Tables, id: int, status: Status, approver: int, now: int): Tables {
    if id in t.requests && t.requests[id].status == Pending then
      var r := t.requests[id];
      var decided := r.(status := status, approverId := Some(approver), decidedAt := Some(now));
      t.(requests := t.requests[id := if status == Approved then decided.(sudoGranted := r.sudoRequested) else decided])
    else t
  }

  function RevokeRow(t: Tables, id: int, revoker: int, now: int): Tables {
    if id in t.requests && t.requests[id].status == Approved then
      t.(requests := t.requests[id := t.requests[id].(status := Denied, approverId := Some(revoker), decidedAt := Some(now))])
    else t
  }

  function RenewRow(t: Tables, id: int, ttl: int, now: int): Tables {
    if id in t.requests && t.requests[id].status == Approved then
      t.(requests := t.requests[id := t.requests[id].(decidedAt := Some(now), ttlSeconds := if ttl <= 0 then RENEWED_TTL else ttl)])
    else t
  }

  /** GrantSudo's UPDATE has no status guard; its earlier read is a separate statement. */
  function SetSudoRow(t: Tables, id: int, granted: bool): Tables {
    if id in t.requests then t.(requests := t.requests[id := t.requests[id].(sudoGranted := granted)]) else t
  }
}
