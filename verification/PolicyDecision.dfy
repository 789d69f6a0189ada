/**
 The role policy's answer in the terms of the table, the roles and the target: which row speaks for a role, what
 is on a comma-separated list, and what the decision holds.
 */
module PolicyDecision {
  import opened Option
  import opened Text
  import opened PolicyEngine

  // ---------------------------------------------------------------- comma-separated lists

  function WithCommas(parts: seq<string>): string
    requires parts != []
  {
    if |parts| == 1 then parts[0] else parts[0] + ("," + WithCommas(parts[1..]))
  }

  /** A list is cut at every comma and nowhere else. */
  lemma {:induction false} SplitCutsAtCommas(s: string)
    ensures Split(s) != [] && WithCommas(Split(s)) == s
    ensures forall i | 0 <= i < |Split(s)| :: ',' !in Split(s)[i]
    decreases |s|
  {
    var first := IndexOf(s, ',');
    if first < |s| {
      var head, rest := s[..first], s[first + 1..];
      SplitCutsAtCommas(rest);
      assert ([head] + Split(rest))[1..] == Split(rest);
      assert s == head + ("," + rest);
    }
  }

  lemma {:induction false} TrimmedMembers(parts: seq<string>, c: string)
    ensures c in Trimmed(parts) <==> c != "" && exists p :: p in parts && TrimSpace(p) == c
  {
    if parts != [] {
      var n := |parts| - 1;
      TrimmedMembers(parts[..n], c);
      assert parts == parts[..n] + [parts[n]];
    }
  }

  /** The items of a list: what its commas separate, trimmed, unless that is nothing. */
  lemma ItemsMean(csv: string) returns (parts: seq<string>)
    ensures parts != [] && WithCommas(parts) == csv && forall i | 0 <= i < |parts| :: ',' !in parts[i]
    ensures forall c :: c in Items(csv) <==> c != "" && exists p :: p in parts && TrimSpace(p) == c
  {
    parts := Split(csv);
    SplitCutsAtCommas(csv);
    forall c ensures c in Items(csv) <==> c != "" && exists p :: p in parts && TrimSpace(p) == c {
      TrimmedMembers(parts, c);
    }
    assert csv == "" ==> parts == [""] && TrimSpace("") == "";
  }

  // ---------------------------------------------------------------- the row that speaks for a role

  lemma KindsMean(exact: string, family: string)
    ensures MatchKinds(exact, family) ==
            {"*"} + (if Lower(TrimSpace(exact)) != "" then {Lower(TrimSpace(exact))} else {})
            + (if Lower(TrimSpace(family)) != "" then {Lower(TrimSpace(family))} else {})
            + (if family in {"ubuntu", "debian", "rhel", "centos", "rocky", "alma", "suse", "linux"} then {"linux"} else {})
  {
    TrimOfWord("linux");
    assert Lower("linux") == "linux";
  }

  /** The row that speaks for a role names the role and one of the matching kinds, reaches the tier, and is one of the most
      specific that do the first two; and when none speaks, every such row has one at least as specific that does not
      reach the tier. */
  lemma ReachingMeans(table: seq<Row>, input: Input, role: string, exact: string, kinds: set<string>, rank: Row -> int)
    requires exact == Lower(TrimSpace(input.targetKind)) && kinds == MatchKinds(exact, FamilyOf(exact))
    requires forall r :: rank(r) == if r.kind == exact then 0
                                    else if r.kind == FamilyOf(exact) then 1
                                    else if r.kind == "linux" then 2 else 3
    ensures var best := Reaching(table, input)(role);
            match best
            case Some(row) =>
              && row in table && row.role == role && row.kind in kinds && input.targetTier <= row.tierMax
              && forall r | r in table && r.role == role && r.kind in kinds :: rank(row) <= rank(r)
            case None =>
              forall r | r in table && r.role == role && r.kind in kinds ::
                exists q :: q in table && q.role == role && q.kind in kinds && rank(q) <= rank(r) && q.tierMax < input.targetTier
  {
    PickMeans(table, role, kinds, exact, FamilyOf(exact), rank);
  }

  lemma PickMeans(table: seq<Row>, role: string, kinds: set<string>, exact: string, family: string, rank: Row -> int)
    requires forall r :: rank(r) == Specificity(r, exact, family)
    ensures var pick := PickRow(table, role, kinds, exact, family);
            && (pick.Some? ==> pick.value in table && pick.value.role == role && pick.value.kind in kinds)
            && forall r | r in table && r.role == role && r.kind in kinds :: pick.Some? && rank(pick.value) <= rank(r)
  {
    PickIsMostSpecific(table, role, kinds, exact, family);
    forall r | r in table && r.role == role && r.kind in kinds
      ensures PickRow(table, role, kinds, exact, family).Some?
      ensures rank(PickRow(table, role, kinds, exact, family).value) <= rank(r)
    {
      assert Matches(r, role, kinds);
    }
  }

  // ---------------------------------------------------------------- the decision

  lemma SomeoneSpeaks(speaker: string -> Option<Row>, roles: seq<string>, role: string)
    requires role in roles && speaker(role).Some?
    ensures speaker(role).value in RowsOf(speaker, roles)
  {
    RowsOfMembers(speaker, roles, speaker(role).value);
  }

  lemma SpeakerOf(speaker: string -> Option<Row>, roles: seq<string>, r: Row) returns (role: string)
    requires r in RowsOf(speaker, roles)
    ensures role in roles && speaker(role) == Some(r)
  {
    RowsOfMembers(speaker, roles, r);
    role :| role in roles && speaker(role) == Some(r);
  }

  lemma AllowMeans(speaker: string -> Option<Row>, roles: seq<string>)
    ensures RowsOf(speaker, roles) != {} <==> exists role :: role in roles && speaker(role).Some?
  {
    if r :| r in RowsOf(speaker, roles) {
      var role := SpeakerOf(speaker, roles, r);
    }
    forall role | role in roles && speaker(role).Some? ensures RowsOf(speaker, roles) != {} {
      SomeoneSpeaks(speaker, roles, role);
    }
  }

  /** Some row of the set passes exactly when the row that speaks for some role does. */
  lemma PassMeans(speaker: string -> Option<Row>, roles: seq<string>, pass: Row -> bool)
    ensures (exists r :: r in RowsOf(speaker, roles) && pass(r)) <==>
            exists role :: role in roles && speaker(role).Some? && pass(speaker(role).value)
  {
    if r :| r in RowsOf(speaker, roles) && pass(r) {
      var role := SpeakerOf(speaker, roles, r);
    }
    if role :| role in roles && speaker(role).Some? && pass(speaker(role).value) {
      SomeoneSpeaks(speaker, roles, role);
    }
  }

  /** What the decision permits: something if a row speaks for some role, after approval if one of these rows asks for it,
      and the commands on their lists. */
  lemma DecisionMeans(table: seq<Row>, input: Input, d: Decision, roles: seq<string>, speaker: string -> Option<Row>)
    requires Answers(table, input, d) && speaker == Reaching(table, input)
    requires roles == if input.roles == [] && input.role != "" then [input.role] else input.roles
    ensures d.allow <==> exists role :: role in roles && speaker(role).Some?
    ensures d.requireApproval <==> exists role :: role in roles && speaker(role).Some? && speaker(role).value.requireApproval != 0
    ensures forall c :: c in d.allowedCmds <==>
              exists role :: role in roles && speaker(role).Some? && c in Items(speaker(role).value.allowed)
    ensures forall c :: c in d.deniedCmds <==>
              exists role :: role in roles && speaker(role).Some? && c in Items(speaker(role).value.denied)
  {
    if roles != [] {
      AllowMeans(speaker, roles);
      PassMeans(speaker, roles, (r: Row) => r.requireApproval != 0);
      CommandsOfSpeakers(speaker, roles, OutcomeOf(d).allowed, OutcomeOf(d).denied);
    }
  }

  lemma CommandsOfSpeakers(speaker: string -> Option<Row>, roles: seq<string>, allowed: set<string>, denied: set<string>)
    requires Lists(RowsOf(speaker, roles), allowed, denied)
    ensures forall c :: c in allowed <==> exists role :: role in roles && speaker(role).Some? && c in Items(speaker(role).value.allowed)
    ensures forall c :: c in denied <==> exists role :: role in roles && speaker(role).Some? && c in Items(speaker(role).value.denied)
  {
    forall role | role in roles && speaker(role).Some? ensures speaker(role).value in RowsOf(speaker, roles) {
      SomeoneSpeaks(speaker, roles, role);
    }
    forall c | c in allowed
      ensures exists role :: role in roles && speaker(role).Some? && c in Items(speaker(role).value.allowed)
    {
      var r :| r in RowsOf(speaker, roles) && c in Items(r.allowed);
      var role := SpeakerOf(speaker, roles, r);
    }
    forall c | c in denied
      ensures exists role :: role in roles && speaker(role).Some? && c in Items(speaker(role).value.denied)
    {
      var r :| r in RowsOf(speaker, roles) && c in Items(r.denied);
      var role := SpeakerOf(speaker, roles, r);
    }
  }

  lemma LinuxMeans(rows: set<Row>, linux: string)
    requires HighestLinux(rows, linux)
    ensures linux in {"none", "sudo", "root"}
    ensures forall r | r in rows :: Lower(TrimSpace(r.linux)) == "root" ==> linux == "root"
    ensures forall r | r in rows :: Lower(TrimSpace(r.linux)) == "sudo" ==> linux != "none"
    ensures linux != "none" ==> exists r :: r in rows && Lower(TrimSpace(r.linux)) == linux
  {
    LinuxNames(linux);
    LinuxNamesFixed();
    forall r | r in rows ensures LinuxPrivilegeRank(r.linux) <= LinuxPrivilegeRank(linux) {
      assert LinuxLevel()(r) <= LinuxPrivilegeRank(linux);
    }
    if linux != "none" {
      var r :| r in rows && LinuxLevel()(r) == LinuxPrivilegeRank(linux);
      LinuxNames(r.linux);
    }
  }

  lemma CiscoMeans(rows: set<Row>, cisco: int)
    requires HighestCisco(rows, cisco)
    ensures 0 <= cisco <= 15
    ensures forall r | r in rows :: (if r.cisco > 15 then 15 else r.cisco) <= cisco
    ensures cisco != 0 ==> exists r :: r in rows && cisco == if r.cisco > 15 then 15 else r.cisco
  {
    CiscoAtMost15(rows, cisco);
    forall r | r in rows ensures NormalizeCiscoPrivilegeLevel(r.cisco) <= cisco {
      assert CiscoLevel()(r) <= cisco;
    }
    if cisco != 0 {
      var r :| r in rows && CiscoLevel()(r) == cisco;
    }
  }

  lemma LinuxOfSpeakers(speaker: string -> Option<Row>, roles: seq<string>, linux: string)
    requires HighestLinux(RowsOf(speaker, roles), linux)
    ensures linux in {"none", "sudo", "root"}
    ensures forall role | role in roles && speaker(role).Some? ::
              && (Lower(TrimSpace(speaker(role).value.linux)) == "root" ==> linux == "root")
              && (Lower(TrimSpace(speaker(role).value.linux)) == "sudo" ==> linux != "none")
    ensures linux != "none" ==>
              exists role :: role in roles && speaker(role).Some? && Lower(TrimSpace(speaker(role).value.linux)) == linux
  {
    var rows := RowsOf(speaker, roles);
    LinuxMeans(rows, linux);
    forall role | role in roles && speaker(role).Some? ensures speaker(role).value in rows {
      SomeoneSpeaks(speaker, roles, role);
    }
    if linux != "none" {
      var r :| r in rows && Lower(TrimSpace(r.linux)) == linux;
      var role := SpeakerOf(speaker, roles, r);
    }
  }

  lemma CiscoOfSpeakers(speaker: string -> Option<Row>, roles: seq<string>, cisco: int)
    requires HighestCisco(RowsOf(speaker, roles), cisco)
    ensures 0 <= cisco <= 15
    ensures forall role | role in roles && speaker(role).Some? ::
              (if speaker(role).value.cisco > 15 then 15 else speaker(role).value.cisco) <= cisco
    ensures cisco != 0 ==>
              exists role :: role in roles && speaker(role).Some?
                             && cisco == if speaker(role).value.cisco > 15 then 15 else speaker(role).value.cisco
  {
    var rows := RowsOf(speaker, roles);
    CiscoMeans(rows, cisco);
    forall role | role in roles && speaker(role).Some? ensures speaker(role).value in rows {
      SomeoneSpeaks(speaker, roles, role);
    }
    if cisco != 0 {
      var r :| r in rows && cisco == if r.cisco > 15 then 15 else r.cisco;
      var role := SpeakerOf(speaker, roles, r);
    }
  }

  /** The privileges: no lower than those of any row that speaks for a role, and those of one of them, or none. */
  lemma PrivilegesMean(table: seq<Row>, input: Input, d: Decision, roles: seq<string>, speaker: string -> Option<Row>)
    requires Answers(table, input, d) && speaker == Reaching(table, input) && roles != []
    requires roles == if input.roles == [] && input.role != "" then [input.role] else input.roles
    ensures d.linux in {"none", "sudo", "root"} && 0 <= d.cisco <= 15
    ensures forall role | role in roles && speaker(role).Some? ::
              && (Lower(TrimSpace(speaker(role).value.linux)) == "root" ==> d.linux == "root")
              && (Lower(TrimSpace(speaker(role).value.linux)) == "sudo" ==> d.linux != "none")
              && (if speaker(role).value.cisco > 15 then 15 else speaker(role).value.cisco) <= d.cisco
    ensures d.linux != "none" ==>
              exists role :: role in roles && speaker(role).Some? && Lower(TrimSpace(speaker(role).value.linux)) == d.linux
    ensures d.cisco != 0 ==>
              exists role :: role in roles && speaker(role).Some?
                             && d.cisco == if speaker(role).value.cisco > 15 then 15 else speaker(role).value.cisco
  {
    LinuxOfSpeakers(speaker, roles, d.linux);
    CiscoOfSpeakers(speaker, roles, d.cisco);
  }
}
