/**
 The role policy: for each effective role the most specific row of the policies table is looked up, and the rows
 that reach the target's tier are merged into one decision.
 */
module PolicyEngine {
  import opened Option
  import opened Text

  /** A row of the policies table, with its NULLs coalesced. */
  datatype Row = Row(role: string, kind: string, tierMax: int, requireApproval: int, allowed: string, denied: string,
                     linux: string, cisco: int)

  datatype Input = Input(role: string, roles: seq<string>, targetKind: string, targetTier: int)

  /** The answer, without its reasons. */
  datatype Decision = Decision(allow: bool, requireApproval: bool, allowedCmds: seq<string>, deniedCmds: seq<string>,
                               linux: string, cisco: int)

  // ---------------------------------------------------------------- privileges

  function NormalizeLinuxPrivilege(p: string): string {
    var t := Lower(TrimSpace(p));
    if t == "sudo" || t == "root" then t else "none"
  }

  function LinuxPrivilegeRank(p: string): nat {
    var t := NormalizeLinuxPrivilege(p);
    if t == "root" then 2 else if t == "sudo" then 1 else 0
  }

  function MergeLinuxPrivilege(current: string, next: string): string {
    if LinuxPrivilegeRank(next) > LinuxPrivilegeRank(current) then NormalizeLinuxPrivilege(next)
    else NormalizeLinuxPrivilege(current)
  }

  function NormalizeCiscoPrivilegeLevel(n: int): int {
    if n <= 0 then 0 else if n > 15 then 15 else n
  }

  function MergeCiscoPrivilegeLevel(current: int, next: int): int {
    var c := NormalizeCiscoPrivilegeLevel(current);
    var n := NormalizeCiscoPrivilegeLevel(next);
    if n <= 0 then c else if c <= 0 then n else if n > c then n else c
  }

  /** The three names are fixed points, and their rank tells them apart. */
  lemma LinuxNames(p: string)
    ensures var n := NormalizeLinuxPrivilege(p);
            && n in ["none", "sudo", "root"] && NormalizeLinuxPrivilege(n) == n
            && LinuxPrivilegeRank(n) == LinuxPrivilegeRank(p)
            && (n == "none" <==> LinuxPrivilegeRank(p) == 0) && (n == "sudo" <==> LinuxPrivilegeRank(p) == 1)
  {
    LinuxNamesFixed();
  }

  lemma LinuxNamesFixed()
    ensures NormalizeLinuxPrivilege("none") == "none"
    ensures NormalizeLinuxPrivilege("sudo") == "sudo"
    ensures NormalizeLinuxPrivilege("root") == "root"
  {
    assert TrimSpace("none") == "none" by { TrimOfWord("none"); }
    assert TrimSpace("sudo") == "sudo" by { TrimOfWord("sudo"); }
    assert TrimSpace("root") == "root" by { TrimOfWord("root"); }
    assert Lower("none") == "none" && Lower("sudo") == "sudo" && Lower("root") == "root";
  }

  predicate LinuxAtMost(a: string, b: string) {
    LinuxPrivilegeRank(a) <= LinuxPrivilegeRank(b)
  }

  /** Merging is the least upper bound, so its order and repeats do not matter. */
  lemma LinuxMergeIsJoin(a: string, b: string, bound: string)
    ensures var m := MergeLinuxPrivilege(a, b);
            && m == NormalizeLinuxPrivilege(m)
            && (LinuxAtMost(m, bound) <==> LinuxAtMost(a, bound) && LinuxAtMost(b, bound))
            && m == MergeLinuxPrivilege(b, a)
  {
    LinuxNames(a);
    LinuxNames(b);
  }

  lemma CiscoMergeIsJoin(a: int, b: int, bound: nat)
    ensures var m := MergeCiscoPrivilegeLevel(a, b);
            && m == NormalizeCiscoPrivilegeLevel(m)
            && (m <= bound <==> NormalizeCiscoPrivilegeLevel(a) <= bound && NormalizeCiscoPrivilegeLevel(b) <= bound)
  {
  }

  // ---------------------------------------------------------------- kinds and rows

  function AddKind(kinds: set<string>, k: string): set<string> {
    var t := Lower(TrimSpace(k));
    if t != "" then kinds + {t} else kinds
  }

  const LINUX_FAMILIES := {"ubuntu", "debian", "rhel", "centos", "rocky", "alma", "suse", "linux"}

  function MatchKinds(exact: string, family: string): set<string> {
    var kinds := AddKind(AddKind({"*"}, exact), family);
    if family in LINUX_FAMILIES then AddKind(kinds, "linux") else kinds
  }

  predicate Matches(row: Row, role: string, kinds: set<string>) {
    row.role == role && row.kind in kinds
  }

  function Specificity(row: Row, exact: string, family: string): nat {
    if row.kind == exact then 0 else if row.kind == family then 1 else if row.kind == "linux" then 2 else 3
  }

  /** The SELECT: the most specific matching row, the first of its equals. */
  function PickRow(table: seq<Row>, role: string, kinds: set<string>, exact: string, family: string): Option<Row> {
    if table == [] then None
    else
      var n := |table| - 1;
      var before := PickRow(table[..n], role, kinds, exact, family);
      if Matches(table[n], role, kinds)
         && (before.None? || Specificity(table[n], exact, family) < Specificity(before.value, exact, family))
      then Some(table[n])
      else before
  }

  /** No matching row is more specific than the one picked. */
  lemma {:induction false} PickIsMostSpecific(table: seq<Row>, role: string, kinds: set<string>, exact: string, family: string)
    ensures var pick := PickRow(table, role, kinds, exact, family);
            && (pick.None? <==> forall i | 0 <= i < |table| :: !Matches(table[i], role, kinds))
            && (pick.Some? ==>
                  && pick.value in table && Matches(pick.value, role, kinds)
                  && forall i | 0 <= i < |table| && Matches(table[i], role, kinds) ::
                       Specificity(pick.value, exact, family) <= Specificity(table[i], exact, family))
  {
    if table != [] {
      var n := |table| - 1;
      PickIsMostSpecific(table[..n], role, kinds, exact, family);
      assert forall i | 0 <= i < n :: table[..n][i] == table[i];
    }
  }

  function Exact(input: Input): string {
    Lower(TrimSpace(input.targetKind))
  }

  function EffectiveRoles(input: Input): seq<string> {
    if input.roles == [] && input.role != "" then [input.role] else input.roles
  }

  /** A role's row, if it reaches the target's tier. */
  function Reaching(table: seq<Row>, input: Input): string -> Option<Row> {
    var exact := Exact(input);
    var family := FamilyOf(exact);
    var kinds := MatchKinds(exact, family);
    role =>
      var pick := PickRow(table, role, kinds, exact, family);
      if pick.Some? && input.targetTier <= pick.value.tierMax then pick else None
  }

  function AsSet<T>(o: Option<T>): set<T> {
    if o.None? then {} else {o.value}
  }

  function RowsOf(reaching: string -> Option<Row>, roles: seq<string>): set<Row> {
    if roles == [] then {} else RowsOf(reaching, roles[..|roles| - 1]) + AsSet(reaching(roles[|roles| - 1]))
  }

  lemma {:induction false} RowsOfMembers(reaching: string -> Option<Row>, roles: seq<string>, r: Row)
    ensures r in RowsOf(reaching, roles) <==> exists role :: role in roles && reaching(role) == Some(r)
  {
    if roles != [] {
      var n := |roles| - 1;
      RowsOfMembers(reaching, roles[..n], r);
      assert roles == roles[..n] + [roles[n]];
    }
  }

  // ---------------------------------------------------------------- comma-separated lists

  function Split(s: string): seq<string>
    decreases |s|
  {
    var i := IndexOf(s, ',');
    if i == |s| then [s] else [s[..i]] + Split(s[i + 1..])
  }

  function Trimmed(parts: seq<string>): seq<string> {
    if parts == [] then []
    else
      var n := |parts| - 1;
      var p := TrimSpace(parts[n]);
      Trimmed(parts[..n]) + if p != "" then [p] else []
  }

  function Items(csv: string): seq<string> {
    if csv == "" then [] else Trimmed(Split(csv))
  }

  method SplitCsv(s: string) returns (out: seq<string>)
    ensures out == Items(s)
  {
    if s == "" {
      return [];
    }
    var parts := Split(s);
    out := [];
    for i := 0 to |parts|
      invariant out == Trimmed(parts[..i])
    {
      assert parts[..i + 1][..i] == parts[..i];
      var p := TrimSpace(parts[i]);
      if p != "" {
        out := out + [p];
      }
    }
    assert parts[..|parts|] == parts;
  }

  // ---------------------------------------------------------------- what a set of rows grants

  predicate Lists(rows: set<Row>, allowed: set<string>, denied: set<string>) {
    && (forall r <- rows, c <- Items(r.allowed) :: c in allowed)
    && (forall c <- allowed :: exists r :: r in rows && c in Items(r.allowed))
    && (forall r <- rows, c <- Items(r.denied) :: c in denied)
    && (forall c <- denied :: exists r :: r in rows && c in Items(r.denied))
  }

  /** The highest level among the rows, 0 if there are none. */
  predicate Highest(rows: set<Row>, level: Row -> nat, top: nat) {
    && (forall r <- rows :: level(r) <= top)
    && (top == 0 || exists r :: r in rows && level(r) == top)
  }

  function LinuxLevel(): Row -> nat {
    (r: Row) => LinuxPrivilegeRank(r.linux)
  }

  function CiscoLevel(): Row -> nat {
    (r: Row) => NormalizeCiscoPrivilegeLevel(r.cisco)
  }

  predicate HighestLinux(rows: set<Row>, linux: string) {
    NormalizeLinuxPrivilege(linux) == linux && Highest(rows, LinuxLevel(), LinuxPrivilegeRank(linux))
  }

  predicate HighestCisco(rows: set<Row>, cisco: int) {
    cisco >= 0 && Highest(rows, CiscoLevel(), cisco)
  }

  predicate Approval(rows: set<Row>, requireApproval: bool) {
    requireApproval <==> exists r :: r in rows && r.requireApproval != 0
  }

  function ToSet(q: seq<string>): (s: set<string>)
    ensures forall c :: c in s <==> c in q
  {
    set c | c in q
  }

  /** A decision with its command lists as sets. */
  datatype Outcome = Outcome(allow: bool, requireApproval: bool, allowed: set<string>, denied: set<string>, linux: string,
                             cisco: int)

  function OutcomeOf(d: Decision): Outcome {
    Outcome(d.allow, d.requireApproval, ToSet(d.allowedCmds), ToSet(d.deniedCmds), d.linux, d.cisco)
  }

  predicate Grants(rows: set<Row>, o: Outcome) {
    && (o.allow <==> rows != {})
    && Approval(rows, o.requireApproval)
    && Lists(rows, o.allowed, o.denied)
    && HighestLinux(rows, o.linux)
    && HighestCisco(rows, o.cisco)
  }

  /** What Decide may answer: the lists come in any order. */
  predicate Answers(table: seq<Row>, input: Input, d: Decision) {
    var roles := EffectiveRoles(input);
    if roles == [] then d == Decision(false, false, [], [], "", 0) else Grants(RowsOf(Reaching(table, input), roles), OutcomeOf(d))
  }

  // ---------------------------------------------------------------- the operations

  lemma AddLists(rows: set<Row>, r: Row, allowed: set<string>, denied: set<string>)
    requires Lists(rows, allowed, denied)
    ensures Lists(rows + {r}, allowed + ToSet(Items(r.allowed)), denied + ToSet(Items(r.denied)))
  {
    var all := rows + {r};
    forall c | c in allowed + ToSet(Items(r.allowed)) ensures exists q :: q in all && c in Items(q.allowed) {
      if c in Items(r.allowed) {
        assert r in all;
      } else {
        var q :| q in rows && c in Items(q.allowed);
        assert q in all;
      }
    }
    forall c | c in denied + ToSet(Items(r.denied)) ensures exists q :: q in all && c in Items(q.denied) {
      if c in Items(r.denied) {
        assert r in all;
      } else {
        var q :| q in rows && c in Items(q.denied);
        assert q in all;
      }
    }
  }

  lemma AddHighest(rows: set<Row>, r: Row, level: Row -> nat, top: nat, top': nat)
    requires Highest(rows, level, top) && top' == if level(r) > top then level(r) else top
    ensures Highest(rows + {r}, level, top')
  {
    if level(r) > top {
      assert r in rows + {r};
    } else if top != 0 {
      var q :| q in rows && level(q) == top;
      assert q in rows + {r};
    }
  }

  lemma AddLinux(rows: set<Row>, r: Row, linux: string)
    requires HighestLinux(rows, linux)
    ensures HighestLinux(rows + {r}, MergeLinuxPrivilege(linux, r.linux))
  {
    LinuxNames(linux);
    LinuxNames(r.linux);
    AddHighest(rows, r, LinuxLevel(), LinuxPrivilegeRank(linux), LinuxPrivilegeRank(MergeLinuxPrivilege(linux, r.linux)));
  }

  lemma AddCisco(rows: set<Row>, r: Row, cisco: int)
    requires HighestCisco(rows, cisco)
    ensures HighestCisco(rows + {r}, MergeCiscoPrivilegeLevel(cisco, r.cisco))
  {
    CiscoAtMost15(rows, cisco);
    AddHighest(rows, r, CiscoLevel(), cisco, MergeCiscoPrivilegeLevel(cisco, r.cisco));
  }

  lemma CiscoAtMost15(rows: set<Row>, cisco: int)
    requires HighestCisco(rows, cisco)
    ensures cisco <= 15
  {
    if cisco != 0 {
      var q :| q in rows && CiscoLevel()(q) == cisco;
    }
  }

  function WithRow(o: Outcome, r: Row): Outcome {
    Outcome(true, o.requireApproval || r.requireApproval != 0, o.allowed + ToSet(Items(r.allowed)),
            o.denied + ToSet(Items(r.denied)), MergeLinuxPrivilege(o.linux, r.linux), MergeCiscoPrivilegeLevel(o.cisco, r.cisco))
  }

  lemma AddApproval(rows: set<Row>, r: Row, requireApproval: bool)
    requires Approval(rows, requireApproval)
    ensures Approval(rows + {r}, requireApproval || r.requireApproval != 0)
  {
    if requireApproval {
      var q :| q in rows && q.requireApproval != 0;
      assert q in rows + {r};
    } else if r.requireApproval != 0 {
      assert r in rows + {r};
    }
  }

  lemma AddRow(rows: set<Row>, r: Row, o: Outcome)
    requires Grants(rows, o)
    ensures Grants(rows + {r}, WithRow(o, r))
  {
    AddApproval(rows, r, o.requireApproval);
    AddLists(rows, r, o.allowed, o.denied);
    AddLinux(rows, r, o.linux);
    AddCisco(rows, r, o.cisco);
    assert r in rows + {r};
  }

  /** A map's keys come out in any order, each once. */
  method Keys(s: set<string>) returns (q: seq<string>)
    ensures ToSet(q) == s && |q| == |s|
  {
    q := [];
    var left := s;
    while left != {}
      invariant ToSet(q) + left == s && ToSet(q) !! left && |q| + |left| == |s|
      decreases left
    {
      var c :| c in left;
      assert ToSet(q + [c]) == ToSet(q) + {c};
      q := q + [c];
      left := left - {c};
    }
  }

  method PolicyMatchKinds(exact: string, family: string) returns (out: seq<string>)
    ensures ToSet(out) == MatchKinds(exact, family) && |out| == |MatchKinds(exact, family)|
  {
    var seen := AddKind({"*"}, exact);
    seen := AddKind(seen, family);
    if family in LINUX_FAMILIES {
      seen := AddKind(seen, "linux");
    }
    out := Keys(seen);
  }

  /** One role's row is merged into the result so far. */
  method MergeRow(final: Outcome, row: Row) returns (merged: Outcome)
    ensures merged == WithRow(final, row)
  {
    var requireApproval := final.requireApproval;
    if row.requireApproval != 0 {
      requireApproval := true;
    }
    var allowed := SplitCsv(row.allowed);
    var denied := SplitCsv(row.denied);
    merged := Outcome(true, requireApproval, final.allowed + ToSet(allowed), final.denied + ToSet(denied),
                      MergeLinuxPrivilege(final.linux, row.linux), MergeCiscoPrivilegeLevel(final.cisco, row.cisco));
  }

  /** The loop over the roles. */
  method MergeRoles(table: seq<Row>, input: Input, roles: seq<string>) returns (final: Outcome)
    ensures Grants(RowsOf(Reaching(table, input), roles), final)
  {
    var exact := Exact(input);
    var family := FamilyOf(exact);
    var kinds := PolicyMatchKinds(exact, family);
    ghost var reaching := Reaching(table, input);
    final := Outcome(false, false, {}, {}, "none", 0);
    NothingGrants();
    for i := 0 to |roles|
      invariant Grants(RowsOf(reaching, roles[..i]), final)
    {
      RowsOfOneMore(reaching, roles, i);
      var pick := PickRow(table, roles[i], ToSet(kinds), exact, family);
      if pick.Some? && input.targetTier <= pick.value.tierMax {
        AddRow(RowsOf(reaching, roles[..i]), pick.value, final);
        final := MergeRow(final, pick.value);
      }
    }
    assert roles[..|roles|] == roles;
  }

  lemma RowsOfOneMore(reaching: string -> Option<Row>, roles: seq<string>, i: nat)
    requires i < |roles|
    ensures RowsOf(reaching, roles[..i + 1]) == RowsOf(reaching, roles[..i]) + AsSet(reaching(roles[i]))
  {
    assert roles[..i + 1][..i] == roles[..i];
  }

  method Decide(table: seq<Row>, input: Input) returns (d: Decision)
    ensures Answers(table, input, d)
    ensures |d.allowedCmds| == |ToSet(d.allowedCmds)| && |d.deniedCmds| == |ToSet(d.deniedCmds)|
  {
    var roles := EffectiveRoles(input);
    if |roles| == 0 {
      return Decision(false, false, [], [], "", 0);
    }
    var final := MergeRoles(table, input, roles);
    var allowedCmds := Keys(final.allowed);
    var deniedCmds := Keys(final.denied);
    d := Decision(final.allow, final.requireApproval, allowedCmds, deniedCmds, final.linux, final.cisco);
  }

  lemma NothingGrants()
    ensures Grants({}, Outcome(false, false, {}, {}, "none", 0))
  {
    LinuxNamesFixed();
  }

  // ---------------------------------------------------------------- main results

  lemma TopIsUnique(rows: set<Row>, level: Row -> nat, a: nat, b: nat)
    requires Highest(rows, level, a) && Highest(rows, level, b)
    ensures a == b
  {
  }

  lemma ListsAreUnique(rows: set<Row>, a: set<string>, d: set<string>, a': set<string>, d': set<string>)
    requires Lists(rows, a, d) && Lists(rows, a', d')
    ensures a == a' && d == d'
  {
    assert forall c :: c in a <==> c in a';
    assert forall c :: c in d <==> c in d';
  }

  lemma GrantsIsUnique(rows: set<Row>, o: Outcome, o': Outcome)
    requires Grants(rows, o) && Grants(rows, o')
    ensures o == o'
  {
    ListsAreUnique(rows, o.allowed, o.denied, o'.allowed, o'.denied);
    TopIsUnique(rows, LinuxLevel(), LinuxPrivilegeRank(o.linux), LinuxPrivilegeRank(o'.linux));
    TopIsUnique(rows, CiscoLevel(), o.cisco, o'.cisco);
    LinuxNames(o.linux);
    LinuxNames(o'.linux);
  }

  lemma RowsGrow(reaching: string -> Option<Row>, roles: seq<string>, more: seq<string>)
    requires ToSet(roles) <= ToSet(more)
    ensures RowsOf(reaching, roles) <= RowsOf(reaching, more)
  {
    forall r | r in RowsOf(reaching, roles) ensures r in RowsOf(reaching, more) {
      RowsOfMembers(reaching, roles, r);
      RowsOfMembers(reaching, more, r);
      var role :| role in roles && reaching(role) == Some(r);
      assert role in ToSet(roles);
    }
  }

  /** The decision depends on the set of roles alone: neither their order nor repeats matter. */
  lemma DecisionDependsOnRoleSet(table: seq<Row>, input: Input, input': Input, d: Decision, d': Decision)
    requires Answers(table, input, d) && Answers(table, input', d')
    requires input.targetKind == input'.targetKind && input.targetTier == input'.targetTier
    requires ToSet(EffectiveRoles(input)) == ToSet(EffectiveRoles(input'))
    ensures OutcomeOf(d) == OutcomeOf(d')
  {
    var roles, roles' := EffectiveRoles(input), EffectiveRoles(input');
    EmptySet(roles);
    EmptySet(roles');
    if roles != [] {
      var reaching := Reaching(table, input);
      SameReach(table, input, input', roles);
      SameReach(table, input, input', roles');
      RowsGrow(reaching, roles, roles');
      RowsGrow(reaching, roles', roles);
      GrantsIsUnique(RowsOf(reaching, roles), OutcomeOf(d), OutcomeOf(d'));
    }
  }

  lemma EmptySet(roles: seq<string>)
    ensures ToSet(roles) == {} <==> roles == []
  {
    if roles != [] {
      assert roles[0] in ToSet(roles);
    }
  }

  lemma {:induction false} SameReach(table: seq<Row>, input: Input, input': Input, roles: seq<string>)
    requires input.targetKind == input'.targetKind && input.targetTier == input'.targetTier
    ensures RowsOf(Reaching(table, input), roles) == RowsOf(Reaching(table, input'), roles)
  {
    if roles != [] {
      SameReach(table, input, input', roles[..|roles| - 1]);
    }
  }

  /** Nothing granted is lost. */
  predicate Grows(o: Outcome, o': Outcome) {
    && (o.allow ==> o'.allow)
    && (o.requireApproval ==> o'.requireApproval)
    && o.allowed <= o'.allowed
    && o.denied <= o'.denied
    && LinuxAtMost(o.linux, o'.linux)
    && o.cisco <= o'.cisco
  }

  lemma TopGrows(rows: set<Row>, more: set<Row>, level: Row -> nat, a: nat, b: nat)
    requires rows <= more && Highest(rows, level, a) && Highest(more, level, b)
    ensures a <= b
  {
  }

  lemma MoreRowsGrantMore(rows: set<Row>, more: set<Row>, o: Outcome, o': Outcome)
    requires rows <= more && Grants(rows, o) && Grants(more, o')
    ensures Grows(o, o')
  {
    TopGrows(rows, more, LinuxLevel(), LinuxPrivilegeRank(o.linux), LinuxPrivilegeRank(o'.linux));
    TopGrows(rows, more, CiscoLevel(), o.cisco, o'.cisco);
  }

  /** More roles never lose the permission, the need for approval, a listed command or a privilege. */
  lemma MoreRolesGrantMore(table: seq<Row>, input: Input, input': Input, d: Decision, d': Decision)
    requires Answers(table, input, d) && Answers(table, input', d')
    requires input.targetKind == input'.targetKind && input.targetTier == input'.targetTier
    requires ToSet(EffectiveRoles(input)) <= ToSet(EffectiveRoles(input'))
    ensures Grows(OutcomeOf(d), OutcomeOf(d'))
  {
    var roles, roles' := EffectiveRoles(input), EffectiveRoles(input');
    EmptySet(roles);
    EmptySet(roles');
    if roles != [] {
      var reaching := Reaching(table, input);
      SameReach(table, input, input', roles');
      RowsGrow(reaching, roles, roles');
      MoreRowsGrantMore(RowsOf(reaching, roles), RowsOf(reaching, roles'), OutcomeOf(d), OutcomeOf(d'));
    } else {
      NothingIsLeast(table, input', d');
    }
  }

  lemma NothingIsLeast(table: seq<Row>, input: Input, d: Decision)
    requires Answers(table, input, d)
    ensures Grows(Outcome(false, false, {}, {}, "", 0), OutcomeOf(d))
  {
    assert TrimSpace("") == "" && Lower("") == "";
  }
}
