/**
 Where the promise "one denial finalizes the request as denied" stops: two calls whose statements
 overlap.  A concrete run, the exact condition under which a recorded denial stands, and the exact condition
 under which a call's report agrees with the row.
 */
module ApprovalRaces {
  import opened Option
  import opened ApprovalMatrix
  import opened ApprovalTables
  import opened ApprovalMachine
  import opened ApprovalTheorems

  const NO_MATRIX := Setup(false, false)

  lemma {:induction false} RunAppend(setup: Setup, s: System, first: seq<Action>, second: seq<Action>)
    ensures Run(setup, s, first + second) == Run(setup, Run(setup, s, first), second)
    decreases |first|
  {
    if first == [] {
      assert first + second == second;
    } else {
      assert (first + second)[0] == first[0] && (first + second)[1..] == first[1..] + second;
      RunAppend(setup, Apply(setup, s, first[0]), first[1..], second);
    }
  }

  function Moves(tid: int, n: nat): (moves: seq<Action>) {
    if n == 0 then [] else [AdvanceCall(tid, 200)] + Moves(tid, n - 1)
  }

  lemma Move(setup: Setup, s: System, tid: int, n: nat)
    requires n > 0 && tid in s.calls
    ensures Run(setup, s, Moves(tid, n)) == Run(setup, AdvanceIn(setup, s, tid, 200), Moves(tid, n - 1))
  {
    assert Moves(tid, n)[1..] == Moves(tid, n - 1);
  }

  function At(s: System, tid: int, p: Phase): System
    requires tid in s.calls
  {
    s.(calls := s.calls[tid := s.calls[tid].(phase := p)])
  }

  lemma AtAgain(s: System, tid: int, p: Phase, q: Phase)
    requires tid in s.calls
    ensures At(At(s, tid, p), tid, q) == At(s, tid, q)
  {
    assert s.calls[tid := s.calls[tid].(phase := p)][tid := s.calls[tid].(phase := q)] == s.calls[tid := s.calls[tid].(phase := q)];
  }

  predicate MayVote(s: System, tid: int) {
    && tid in s.calls && s.calls[tid].phase.Started? && s.calls[tid].role == "admin"
    && s.calls[tid].id in s.tables.requests
    && s.tables.requests[s.calls[tid].id].status == Pending
    && s.tables.requests[s.calls[tid].id].userId != s.calls[tid].approver
    && (s.calls[tid].id, s.calls[tid].approver) !in s.tables.votes
  }

  function AdminWarrant(s: System, tid: int): Warrant
    requires tid in s.calls
  {
    Warrant(None, UserGroups(s.tables, s.calls[tid].approver), "admin")
  }

  lemma ClearAdmin(s: System, tid: int)
    requires MayVote(s, tid)
    ensures Run(NO_MATRIX, s, Moves(tid, 5)) == Run(NO_MATRIX, At(s, tid, Cleared(1, AdminWarrant(s, tid))), Moves(tid, 2))
  {
    var req := s.tables.requests[s.calls[tid].id];
    var w := AdminWarrant(s, tid);
    Move(NO_MATRIX, s, tid, 5);
    assert AdvanceIn(NO_MATRIX, s, tid, 200) == At(s, tid, Loaded(req));
    Move(NO_MATRIX, At(s, tid, Loaded(req)), tid, 4);
    AtAgain(s, tid, Loaded(req), Ruled(None));
    assert AdvanceIn(NO_MATRIX, At(s, tid, Loaded(req)), tid, 200) == At(s, tid, Ruled(None));
    Move(NO_MATRIX, At(s, tid, Ruled(None)), tid, 3);
    AtAgain(s, tid, Ruled(None), Cleared(1, w));
    assert AdvanceIn(NO_MATRIX, At(s, tid, Ruled(None)), tid, 200) == At(s, tid, Cleared(1, w));
  }

  function VotesAfter(s: System, tid: int): map<(int, int), Vote>
    requires tid in s.calls
  {
    var c := s.calls[tid];
    s.tables.votes[(c.id, c.approver) := Vote(c.approve, c.comment, 200)]
  }

  lemma RecordAndTally(s: System, tid: int, w: Warrant)
    requires tid in s.calls && s.calls[tid].phase == Cleared(1, w)
    requires (s.calls[tid].id, s.calls[tid].approver) !in s.tables.votes
    ensures var s' := Run(NO_MATRIX, s, Moves(tid, 2));
            var c := s.calls[tid];
            var votes := VotesAfter(s, tid);
            && s'.tables == s.tables.(votes := votes)
            && s'.calls == At(s, tid, Counted(1, |Voters(votes, c.id, true)|, |Voters(votes, c.id, false)|)).calls
            && s'.tallied == s.tallied[tid := |s.ballots| + 1]
  {
    Move(NO_MATRIX, s, tid, 2);
    var s1 := AdvanceIn(NO_MATRIX, s, tid, 200);
    assert s1.calls == At(s, tid, Recorded(1)).calls;
    Move(NO_MATRIX, s1, tid, 1);
    var votes := VotesAfter(s, tid);
    assert s1.tables.votes == votes;
    var c := s.calls[tid];
    AtAgain(s, tid, Recorded(1), Counted(1, |Voters(votes, c.id, true)|, |Voters(votes, c.id, false)|));
    assert Moves(tid, 0) == [];
  }

  /** An administrator's call, uninterrupted from its start to just before its finalizing statement. */
  lemma CastAndTally(s: System, tid: int)
    requires MayVote(s, tid)
    ensures var s' := Run(NO_MATRIX, s, Moves(tid, 5));
            var c := s.calls[tid];
            var votes := VotesAfter(s, tid);
            && s'.tables == s.tables.(votes := votes)
            && s'.calls == At(s, tid, Counted(1, |Voters(votes, c.id, true)|, |Voters(votes, c.id, false)|)).calls
            && s'.tallied == s.tallied[tid := |s.ballots| + 1]
  {
    var w := AdminWarrant(s, tid);
    var s1 := At(s, tid, Cleared(1, w));
    ClearAdmin(s, tid);
    RecordAndTally(s1, tid, w);
    assert VotesAfter(s1, tid) == VotesAfter(s, tid);
    var votes, c := VotesAfter(s, tid), s.calls[tid];
    AtAgain(s, tid, Cleared(1, w), Counted(1, |Voters(votes, c.id, true)|, |Voters(votes, c.id, false)|));
  }

  /** Two administrators meet on request 1 of user 7: 8 approves and tallies, 9 denies and tallies, both finalize. */
  const BEGIN := [
    FileRequest(1, 7, 20, "maintenance", 0, false, 100),
    BeginDecide(81, 1, 8, "admin", true, ""),
    BeginDecide(91, 1, 9, "admin", false, "")]

  const RACE := BEGIN + Moves(81, 5) + Moves(91, 5) + [AdvanceCall(81, 200), AdvanceCall(91, 200)]

  lemma BeginState()
    ensures var s := Run(NO_MATRIX, EMPTY, BEGIN);
            && s.tables.votes == map[]
            && s.tables.requests == map[1 := Request(7, 20, "maintenance", Pending, None, 100, None, DEFAULT_TTL, false, false)]
            && s.calls == map[81 := Call(1, 8, "admin", true, "", Started), 91 := Call(1, 9, "admin", false, "", Started)]
  {
    var s1 := Apply(NO_MATRIX, EMPTY, BEGIN[0]);
    var s2 := Apply(NO_MATRIX, s1, BEGIN[1]);
    var s3 := Apply(NO_MATRIX, s2, BEGIN[2]);
    assert BEGIN[1..][1..][1..] == [];
    assert Run(NO_MATRIX, EMPTY, BEGIN) == Run(NO_MATRIX, s1, BEGIN[1..]) == Run(NO_MATRIX, s2, BEGIN[1..][1..])
        == Run(NO_MATRIX, s3, []) == s3;
  }

  const YES := Vote(true, "", 200)
  const NO := Vote(false, "", 200)
  const FILED := Request(7, 20, "maintenance", Pending, None, 100, None, DEFAULT_TTL, false, false)

  lemma FirstTallied()
    ensures var s := Run(NO_MATRIX, EMPTY, BEGIN + Moves(81, 5));
            && s.tables.requests == map[1 := FILED] && s.tables.votes == map[(1, 8) := YES]
            && s.calls == map[81 := Call(1, 8, "admin", true, "", Counted(1, 1, 0)),
                              91 := Call(1, 9, "admin", false, "", Started)]
  {
    BeginState();
    var s0 := Run(NO_MATRIX, EMPTY, BEGIN);
    RunAppend(NO_MATRIX, EMPTY, BEGIN, Moves(81, 5));
    CastAndTally(s0, 81);
    assert VotesAfter(s0, 81) == map[(1, 8) := YES];
    TallyOfRace(YES, NO);
  }

  lemma SecondTally(s: System)
    requires s.tables.requests == map[1 := FILED] && s.tables.votes == map[(1, 8) := YES]
    requires s.calls == map[81 := Call(1, 8, "admin", true, "", Counted(1, 1, 0)),
                            91 := Call(1, 9, "admin", false, "", Started)]
    ensures var s' := Run(NO_MATRIX, s, Moves(91, 5));
            && s'.tables.requests == map[1 := FILED] && s'.tables.votes == map[(1, 8) := YES, (1, 9) := NO]
            && s'.calls == map[81 := Call(1, 8, "admin", true, "", Counted(1, 1, 0)),
                               91 := Call(1, 9, "admin", false, "", Counted(1, 1, 1))]
  {
    CastAndTally(s, 91);
    assert VotesAfter(s, 91) == map[(1, 8) := YES][(1, 9) := NO] == map[(1, 8) := YES, (1, 9) := NO];
    TallyOfRace(YES, NO);
  }

  /** Both tallies taken, neither call finalized: the approver counted no denial, the denier counted one. */
  lemma BothTallied()
    ensures var s := Run(NO_MATRIX, EMPTY, BEGIN + Moves(81, 5) + Moves(91, 5));
            && s.tables.requests == map[1 := FILED] && s.tables.votes == map[(1, 8) := YES, (1, 9) := NO]
            && s.calls == map[81 := Call(1, 8, "admin", true, "", Counted(1, 1, 0)),
                              91 := Call(1, 9, "admin", false, "", Counted(1, 1, 1))]
  {
    FirstTallied();
    RunAppend(NO_MATRIX, EMPTY, BEGIN + Moves(81, 5), Moves(91, 5));
    SecondTally(Run(NO_MATRIX, EMPTY, BEGIN + Moves(81, 5)));
  }

  /** The row is approved although a denial was recorded, and the denier was told "denied". */
  lemma DenialCanBeOvertaken()
    ensures var s := Run(NO_MATRIX, EMPTY, RACE);
            && 1 in s.tables.requests && s.tables.requests[1].status == Approved
            && (1, 9) in s.tables.votes && !s.tables.votes[(1, 9)].approve
            && 91 in s.calls && s.calls[91].phase == Finished(Reported(Denied, 1, 1))
            && !VoteInFlight(s, 1)
  {
    BothTallied();
    var before := BEGIN + Moves(81, 5) + Moves(91, 5);
    var s0 := Run(NO_MATRIX, EMPTY, before);
    RunAppend(NO_MATRIX, EMPTY, before, [AdvanceCall(81, 200), AdvanceCall(91, 200)]);
    var s1 := AdvanceIn(NO_MATRIX, s0, 81, 200);
    var s2 := AdvanceIn(NO_MATRIX, s1, 91, 200);
    assert [AdvanceCall(81, 200), AdvanceCall(91, 200)][1..] == [AdvanceCall(91, 200)];
    assert [AdvanceCall(91, 200)][1..] == [];
    assert Run(NO_MATRIX, s1, [AdvanceCall(91, 200)]) == Run(NO_MATRIX, s2, []) == s2;
    assert s1.tables == FinalizeRow(s0.tables, 1, Approved, 8, 200);
    assert s2.tables == s1.tables;
  }

  lemma TallyOfRace(yes: Vote, no: Vote)
    requires yes.approve && !no.approve
    ensures |Voters(map[(1, 8) := yes], 1, true)| == 1 && |Voters(map[(1, 8) := yes], 1, false)| == 0
    ensures var votes := map[(1, 8) := yes][(1, 9) := no];
            |Voters(votes, 1, true)| == 1 && |Voters(votes, 1, false)| == 1
  {
    var none: map<(int, int), Vote> := map[];
    assert Voters(none, 1, true) == {} && Voters(none, 1, false) == {};
    assert map[(1, 8) := yes] == none[(1, 8) := yes];
    VotersInsert(none, 1, 8, yes, 1, true);
    VotersInsert(none, 1, 8, yes, 1, false);
    VotersInsert(map[(1, 8) := yes], 1, 9, no, 1, true);
    VotersInsert(map[(1, 8) := yes], 1, 9, no, 1, false);
  }

  // ---------------------------------------------------------------- exactly when a denial stands

  /** The call has tallied an approval and only its update is left. */
  predicate AboutToApprove(s: System, tid: int, id: int) {
    && tid in s.calls && s.calls[tid].id == id && s.calls[tid].phase.Counted?
    && Verdict(s.calls[tid].phase.required, s.calls[tid].phase.have, s.calls[tid].phase.against) == Approved
  }

  predicate IsApproved(s: System, id: int) {
    id in s.tables.requests && s.tables.requests[id].status == Approved
  }

  /** Whatever happens next, the request is never approved. */
  ghost predicate StaysUnapproved(setup: Setup, s: System, id: int) {
    forall more :: !IsApproved(Run(setup, s, more), id)
  }

  /** A denial on record, and nobody about to approve. */
  predicate DenialStands(s: System, id: int) {
    id in s.tables.requests && !IsApproved(s, id) && Voters(s.tables.votes, id, false) != {}
    && forall tid | tid in s.calls :: !AboutToApprove(s, tid, id)
  }

  lemma SomeoneVotes(votes: map<(int, int), Vote>, id: int, approve: bool)
    requires Voters(votes, id, approve) != {}
    ensures |Voters(votes, id, approve)| > 0
  {
  }

  lemma DenialStaysRecorded(setup: Setup, c: Call, t: Tables, now: int, id: int)
    requires Voters(t.votes, id, false) != {}
    ensures Voters(Advance(setup, c, t, now).1.votes, id, false) != {}
  {
    if c.phase.Cleared? && (c.id, c.approver) !in t.votes {
      VotersInsert(t.votes, c.id, c.approver, Vote(c.approve, c.comment, now), id, false);
    }
  }

  /** A tally that finds the denial does not approve. */
  lemma TallySeesDenial(setup: Setup, c: Call, t: Tables, now: int)
    requires Voters(t.votes, c.id, false) != {}
    ensures var c' := Advance(setup, c, t, now).0;
            c'.id == c.id && (c'.phase.Counted? ==> Verdict(c'.phase.required, c'.phase.have, c'.phase.against) == Denied)
  {
    SomeoneVotes(t.votes, c.id, false);
  }

  /** Only a call about to approve approves. */
  lemma OthersDoNotApprove(setup: Setup, s: System, tid: int, now: int, id: int)
    requires tid in s.calls && id in s.tables.requests && !IsApproved(s, id) && !AboutToApprove(s, tid, id)
    ensures id in AdvanceIn(setup, s, tid, now).tables.requests && !IsApproved(AdvanceIn(setup, s, tid, now), id)
  {
  }

  lemma DenialStandsThroughCall(setup: Setup, s: System, tid: int, now: int, id: int)
    requires DenialStands(s, id) && tid in s.calls
    ensures DenialStands(AdvanceIn(setup, s, tid, now), id)
  {
    var s' := AdvanceIn(setup, s, tid, now);
    var c := s.calls[tid];
    assert !AboutToApprove(s, tid, id);
    DenialStaysRecorded(setup, c, s.tables, now, id);
    OthersDoNotApprove(setup, s, tid, now, id);
    if c.id == id {
      TallySeesDenial(setup, c, s.tables, now);
    }
    CallsAfter(setup, s, tid, now);
    forall other | other in s'.calls ensures !AboutToApprove(s', other, id) {
      if other != tid {
        assert !AboutToApprove(s, other, id);
      }
    }
  }

  lemma CallsAfter(setup: Setup, s: System, tid: int, now: int)
    requires tid in s.calls
    ensures var s' := AdvanceIn(setup, s, tid, now);
            && s'.calls == s.calls[tid := Advance(setup, s.calls[tid], s.tables, now).0]
            && s'.tables == Advance(setup, s.calls[tid], s.tables, now).1
            && s'.calls[tid].id == s.calls[tid].id
  {
  }

  lemma DenialStandsThroughStep(setup: Setup, s: System, a: Action, id: int)
    requires DenialStands(s, id)
    ensures DenialStands(Apply(setup, s, a), id)
  {
    if a.AdvanceCall? {
      if a.tid in s.calls {
        DenialStandsThroughCall(setup, s, a.tid, a.now, id);
      }
    } else {
      var s' := Apply(setup, s, a);
      forall tid | tid in s'.calls ensures !AboutToApprove(s', tid, id) {
        assert !AboutToApprove(s, tid, id);
      }
    }
  }

  lemma {:induction false} DenialStandsThroughRun(setup: Setup, s: System, actions: seq<Action>, id: int)
    requires DenialStands(s, id)
    ensures DenialStands(Run(setup, s, actions), id)
    decreases |actions|
  {
    if actions != [] {
      DenialStandsThroughStep(setup, s, actions[0], id);
      DenialStandsThroughRun(setup, Apply(setup, s, actions[0]), actions[1..], id);
    }
  }

  lemma OvertakenNext(setup: Setup, s: System, tid: int, id: int)
    requires AboutToApprove(s, tid, id) && id in s.tables.requests && s.tables.requests[id].status == Pending
    ensures IsApproved(Run(setup, s, [AdvanceCall(tid, 0)]), id)
  {
    assert Run(setup, s, [AdvanceCall(tid, 0)]) == Run(setup, AdvanceIn(setup, s, tid, 0), []) by {
      assert [AdvanceCall(tid, 0)][1..] == [];
    }
  }

  /** How far the promise goes, from any state: while the request is pending with a denial on record, no
      continuation approves it if and only if no call on it has already tallied an approval. */
  lemma DenialStandsExactly(setup: Setup, s: System, id: int)
    requires id in s.tables.requests && s.tables.requests[id].status == Pending && Voters(s.tables.votes, id, false) != {}
    ensures StaysUnapproved(setup, s, id) <==> forall tid | tid in s.calls :: !AboutToApprove(s, tid, id)
  {
    if tid :| tid in s.calls && AboutToApprove(s, tid, id) {
      OvertakenNext(setup, s, tid, id);
    } else {
      forall more ensures !IsApproved(Run(setup, s, more), id) {
        DenialStandsThroughRun(setup, s, more, id);
      }
    }
  }

  /** A call that reports a verdict reports the row's status exactly when, as its last statement
      starts, the row is pending or already carries that verdict. */
  lemma ReportAgreesWithRow(setup: Setup, actions: seq<Action>, tid: int, now: int)
    requires var s := Run(setup, EMPTY, actions); tid in s.calls && s.calls[tid].phase.Counted?
    ensures var s := Run(setup, EMPTY, actions);
            var s' := AdvanceIn(setup, s, tid, now);
            var id := s.calls[tid].id;
            && id in s.tables.requests && id in s'.tables.requests
            && s'.calls[tid].phase.Finished? && s'.calls[tid].phase.outcome.Reported?
            && var told := s'.calls[tid].phase.outcome.status;
               told != Pending ==>
                 (told == s'.tables.requests[id].status <==> s.tables.requests[id].status in {Pending, told})
  {
    Reachable(setup, actions);
    var s := Run(setup, EMPTY, actions);
    assert SoundCall(setup, s, tid);
  }
}
