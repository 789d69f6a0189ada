/**
 What more roles do to the commands a user may run: the decision's lists, read by the command check.
 */
module PolicyRoles {
  import opened Option
  import opened PolicyEngine
  import opened CommandLine

  /** The order and repeats of a list do not matter to the check, so a decision's lists may come in any order. */
  lemma HitDependsOnSet(e: Expander, cmd: string, a: seq<string>, b: seq<string>)
    requires ToSet(a) <= ToSet(b) && Hit(e, cmd, a)
    ensures Hit(e, cmd, b)
  {
    var i :| 0 <= i < |a| && HitBy(e, cmd, a[i]);
    assert a[i] in ToSet(a);
    var k :| 0 <= k < |b| && b[k] == a[i];
    assert HitBy(e, cmd, b[k]);
  }

  lemma VerdictDependsOnSets(e: Expander, cmd: string, allow: seq<string>, deny: seq<string>, allow': seq<string>,
                             deny': seq<string>)
    requires ToSet(allow) == ToSet(allow') && ToSet(deny) == ToSet(deny')
    ensures Allowed(e, cmd, allow, deny) == Allowed(e, cmd, allow', deny')
  {
    var c := Normalize(e, cmd);
    EmptySet(allow);
    EmptySet(allow');
    if Hit(e, c, allow) { HitDependsOnSet(e, c, allow, allow'); }
    if Hit(e, c, allow') { HitDependsOnSet(e, c, allow', allow); }
    if Hit(e, c, deny) { HitDependsOnSet(e, c, deny, deny'); }
    if Hit(e, c, deny') { HitDependsOnSet(e, c, deny', deny); }
  }

  lemma EmptyCommand(e: Expander, allow: seq<string>, deny: seq<string>)
    ensures Allowed(e, "", allow, deny) <==> allow == []
  {
    assert Normalize(e, "") == "";
  }

  /** A longer allow list permits whatever the shorter one did, except that the first entry of all turns the
      permissive default off. */
  lemma LongerAllowListPermitsMore(e: Expander, allow: seq<string>, allow': seq<string>, deny: seq<string>)
    requires ToSet(allow) <= ToSet(allow')
    ensures (forall cmd :: Allowed(e, cmd, allow, deny) ==> Allowed(e, cmd, allow', deny)) <==> allow != [] || allow' == []
  {
    if allow != [] || allow' == [] {
      EmptySet(allow);
      forall cmd | Allowed(e, cmd, allow, deny) ensures Allowed(e, cmd, allow', deny) {
        var c := Normalize(e, cmd);
        if Hit(e, c, allow) { HitDependsOnSet(e, c, allow, allow'); }
      }
    } else {
      EmptyCommand(e, allow, deny);
      EmptyCommand(e, allow', deny);
    }
  }

  // ---------------------------------------------------------------- the rows of two users

  function RowsFor(table: seq<Row>, input: Input): set<Row> {
    RowsOf(Reaching(table, input), EffectiveRoles(input))
  }

  /** Some row lists allowed commands. */
  predicate HasAllowList(rows: set<Row>) {
    exists r <- rows :: Items(r.allowed) != []
  }

  /** Whatever these rows deny, those rows deny too. */
  predicate DeniesNothingNew(more: set<Row>, rows: set<Row>) {
    forall r <- more, c <- Items(r.denied) :: exists q <- rows :: c in Items(q.denied)
  }

  lemma AllowListExactly(rows: set<Row>, d: Decision)
    requires Grants(rows, OutcomeOf(d))
    ensures d.allowedCmds != [] <==> HasAllowList(rows)
  {
    EmptySet(d.allowedCmds);
    if c :| c in ToSet(d.allowedCmds) {
      var r :| r in rows && c in Items(r.allowed);
      assert Items(r.allowed) != [];
    }
    if r :| r in rows && Items(r.allowed) != [] {
      assert Items(r.allowed)[0] in ToSet(d.allowedCmds);
    }
  }

  lemma SameDenials(rows: set<Row>, more: set<Row>, d: Decision, d': Decision)
    requires Grants(rows, OutcomeOf(d)) && Grants(more, OutcomeOf(d')) && DeniesNothingNew(more, rows)
    ensures ToSet(d'.deniedCmds) <= ToSet(d.deniedCmds)
  {
    forall c | c in ToSet(d'.deniedCmds) ensures c in ToSet(d.deniedCmds) {
      var r :| r in more && c in Items(r.denied);
      var q :| q in rows && c in Items(q.denied);
    }
  }

  /** Everything the first decision lets run, the second one does. */
  ghost predicate RunsNoLess(e: Expander, d: Decision, d': Decision) {
    forall cmd :: Allowed(e, cmd, d.allowedCmds, d.deniedCmds) ==> Allowed(e, cmd, d'.allowedCmds, d'.deniedCmds)
  }

  /** More rows that deny nothing new run no less, exactly unless only the added ones carry an allow list. */
  lemma MoreRowsRunMore(e: Expander, rows: set<Row>, more: set<Row>, d: Decision, d': Decision)
    requires rows <= more && Grants(rows, OutcomeOf(d)) && Grants(more, OutcomeOf(d')) && DeniesNothingNew(more, rows)
    ensures RunsNoLess(e, d, d') <==> HasAllowList(rows) || !HasAllowList(more)
  {
    MoreRowsGrantMore(rows, more, OutcomeOf(d), OutcomeOf(d'));
    SameDenials(rows, more, d, d');
    AllowListExactly(rows, d);
    AllowListExactly(more, d');
    LongerAllowListPermitsMore(e, d.allowedCmds, d'.allowedCmds, d.deniedCmds);
    forall cmd
      ensures Allowed(e, cmd, d'.allowedCmds, d'.deniedCmds) == Allowed(e, cmd, d'.allowedCmds, d.deniedCmds)
    {
      VerdictDependsOnSets(e, cmd, d'.allowedCmds, d'.deniedCmds, d'.allowedCmds, d.deniedCmds);
    }
  }

  /** Of two users whose rows deny the same commands, the one with more roles may run every command the other may,
      exactly unless the rows of the added roles alone carry an allow list. */
  lemma MoreRolesRunMore(e: Expander, table: seq<Row>, input: Input, input': Input, d: Decision, d': Decision)
    ensures Answers(table, input, d) && Answers(table, input', d')
            && input.targetKind == input'.targetKind && input.targetTier == input'.targetTier
            && ToSet(EffectiveRoles(input)) <= ToSet(EffectiveRoles(input'))
            && DeniesNothingNew(RowsFor(table, input'), RowsFor(table, input)) ==>
              (RunsNoLess(e, d, d') <==> HasAllowList(RowsFor(table, input)) || !HasAllowList(RowsFor(table, input')))
  {
    if Answers(table, input, d) && Answers(table, input', d')
       && input.targetKind == input'.targetKind && input.targetTier == input'.targetTier
       && ToSet(EffectiveRoles(input)) <= ToSet(EffectiveRoles(input'))
       && DeniesNothingNew(RowsFor(table, input'), RowsFor(table, input))
    {
      SameReach(table, input, input', EffectiveRoles(input'));
      RowsGrow(Reaching(table, input), EffectiveRoles(input), EffectiveRoles(input'));
      AnswerLists(table, input, d);
      AnswerLists(table, input', d');
      MoreRowsRunMore(e, RowsFor(table, input), RowsFor(table, input'), Permitting(table, input, d), Permitting(table, input', d'));
    }
  }

  /** The answer, with what a call without any role gets put like that of a role without rows. */
  function Permitting(table: seq<Row>, input: Input, d: Decision): Decision {
    if EffectiveRoles(input) == [] then d.(linux := "none") else d
  }

  lemma AnswerLists(table: seq<Row>, input: Input, d: Decision)
    requires Answers(table, input, d)
    ensures Grants(RowsFor(table, input), OutcomeOf(Permitting(table, input, d)))
  {
    if EffectiveRoles(input) == [] {
      NothingGrants();
      assert ToSet([]) == {};
    }
  }
}
