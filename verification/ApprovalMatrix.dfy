/**
 The approval matrix: which rule governs a request.  The source asks SQL for the enabled rules that
 match the target, ordered by how specific they are, and takes the first whose requester groups fit;
 `FindRule` is that loop and `BestRule` the order-free account of its answer.
 */
module ApprovalMatrix {
  import opened Option
  import opened Text

  datatype MatrixRule = MatrixRule(
    id: int,
    name: string,
    targetKind: string,
    tierMin: int,
    tierMax: int,
    requiredApprovals: int,
    requesterGroups: seq<int>,
    approverGroups: seq<int>,
    priority: int,
    enabled: bool)

  /** The WHERE clause of the rule query. */
  predicate Selected(r: MatrixRule, kind: string, tier: int) {
    && r.enabled
    && (r.targetKind == kind || r.targetKind == FamilyOf(kind) || r.targetKind == "*")
    && r.tierMin <= tier <= r.tierMax
  }

  predicate FitsRequester(r: MatrixRule, groups: seq<int>) {
    r.requesterGroups == [] || Meets(r.requesterGroups, groups)
  }

  predicate Meets(a: seq<int>, b: seq<int>) {
    exists j | 0 <= j < |b| :: b[j] in a
  }

  predicate Applies(r: MatrixRule, kind: string, tier: int, groups: seq<int>) {
    Selected(r, kind, tier) && FitsRequester(r, groups)
  }

  /** Exact kind first, then the vendor family, then the wildcard. */
  function Rank(r: MatrixRule, kind: string): nat {
    if r.targetKind == kind then 0 else if r.targetKind == FamilyOf(kind) then 1 else 2
  }

  /** The ORDER BY clause: rank, then priority, then id, all ascending. */
  predicate Before(a: MatrixRule, b: MatrixRule, kind: string) {
    || Rank(a, kind) < Rank(b, kind)
    || (Rank(a, kind) == Rank(b, kind) && a.priority < b.priority)
    || (Rank(a, kind) == Rank(b, kind) && a.priority == b.priority && a.id < b.id)
  }

  /** The governing rule, found without sorting anything. */
  function BestRule(rules: seq<MatrixRule>, kind: string, tier: int, groups: seq<int>): (best: Option<MatrixRule>)
  {
    if rules == [] then None
    else
      var rest := BestRule(rules[1..], kind, tier, groups);
      if !Applies(rules[0], kind, tier, groups) then rest
      else if rest.Some? && Before(rest.value, rules[0], kind) then rest
      else Some(rules[0])
  }

  /** What the rule lookup promises: a rule of the table that applies and that none other precedes;
      no rule exactly when none applies. */
  lemma {:induction false} BestRuleIsMostSpecific(rules: seq<MatrixRule>, kind: string, tier: int, groups: seq<int>)
    ensures var best := BestRule(rules, kind, tier, groups);
            && (best.None? <==> forall r | r in rules :: !Applies(r, kind, tier, groups))
            && (best.Some? ==>
                  && best.value in rules
                  && Applies(best.value, kind, tier, groups)
                  && forall r | r in rules && Applies(r, kind, tier, groups) :: !Before(r, best.value, kind))
  {
    if rules != [] {
      BestRuleIsMostSpecific(rules[1..], kind, tier, groups);
      assert rules == [rules[0]] + rules[1..];
    }
  }

  lemma MeetsBy(a: seq<int>, b: seq<int>, g: int)
    requires g in a && g in b
    ensures Meets(a, b)
  {
    var j :| 0 <= j < |b| && b[j] == g;
    assert b[j] in a;
  }

  lemma MeetsMeans(a: seq<int>, b: seq<int>)
    ensures Meets(a, b) <==> exists g :: g in a && g in b
  {
    if Meets(a, b) {
      var j :| 0 <= j < |b| && b[j] in a;
      var g := b[j];
      assert g in a && g in b;
    }
    forall g | g in a && g in b ensures Meets(a, b) {
      MeetsBy(a, b, g);
    }
  }

  /** Fields spelled out: a rule applies when it is enabled, is for the kind, its family or any kind, spans the tier,
      and names no requester group or one the requester is in. */
  lemma AppliesMeans(r: MatrixRule, kind: string, tier: int, groups: seq<int>)
    ensures Applies(r, kind, tier, groups) <==>
              && r.enabled && (r.targetKind == kind || r.targetKind == FamilyOf(kind) || r.targetKind == "*")
              && r.tierMin <= tier <= r.tierMax
              && (r.requesterGroups == [] || exists g | g in r.requesterGroups :: g in groups)
  {
    MeetsMeans(r.requesterGroups, groups);
  }

  /** The governing rule, fields spelled out: it applies, and every other rule that does is for a less exact kind, or for
      one as exact at no better a priority, or at the same priority with no smaller an id. */
  lemma BestRuleMeans(rules: seq<MatrixRule>, kind: string, tier: int, groups: seq<int>)
    ensures var best := BestRule(rules, kind, tier, groups);
            var fits := (r: MatrixRule) =>
              && r.enabled && (r.targetKind == kind || r.targetKind == FamilyOf(kind) || r.targetKind == "*")
              && r.tierMin <= tier <= r.tierMax
              && (r.requesterGroups == [] || exists g | g in r.requesterGroups :: g in groups);
            var exact := (r: MatrixRule) => if r.targetKind == kind then 0 else if r.targetKind == FamilyOf(kind) then 1 else 2;
            && (best.None? <==> forall r | r in rules :: !fits(r))
            && (best.Some? ==>
                  && best.value in rules && fits(best.value)
                  && forall r | r in rules && fits(r) ::
                       || exact(best.value) < exact(r)
                       || (exact(best.value) == exact(r)
                           && (best.value.priority < r.priority || (best.value.priority == r.priority && best.value.id <= r.id))))
  {
    BestRuleIsMostSpecific(rules, kind, tier, groups);
    forall r: MatrixRule
      ensures Applies(r, kind, tier, groups) <==>
                && r.enabled && (r.targetKind == kind || r.targetKind == FamilyOf(kind) || r.targetKind == "*")
                && r.tierMin <= tier <= r.tierMax
                && (r.requesterGroups == [] || exists g | g in r.requesterGroups :: g in groups)
    {
      AppliesMeans(r, kind, tier, groups);
    }
  }

  /** The rows as SQL delivers them: selected, and ordered by `Before`. */
  function OrderedRows(rules: seq<MatrixRule>, kind: string, tier: int): (rows: seq<MatrixRule>)
  {
    if rules == [] then []
    else
      var rest := OrderedRows(rules[1..], kind, tier);
      if Selected(rules[0], kind, tier) then Insert(rules[0], rest, kind) else rest
  }

  function Insert(r: MatrixRule, rows: seq<MatrixRule>, kind: string): (out: seq<MatrixRule>)
  {
    if rows == [] || !Before(rows[0], r, kind) then [r] + rows else [rows[0]] + Insert(r, rows[1..], kind)
  }

  ghost predicate Ordered(rows: seq<MatrixRule>, kind: string) {
    forall i, j | 0 <= i < j < |rows| :: !Before(rows[j], rows[i], kind)
  }

  function FirstFit(rows: seq<MatrixRule>, groups: seq<int>): (r: Option<MatrixRule>) {
    if rows == [] then None
    else if FitsRequester(rows[0], groups) then Some(rows[0])
    else FirstFit(rows[1..], groups)
  }

  lemma {:induction false} InsertKeepsOrder(r: MatrixRule, rows: seq<MatrixRule>, kind: string)
    requires Ordered(rows, kind)
    ensures Ordered(Insert(r, rows, kind), kind)
    ensures multiset(Insert(r, rows, kind)) == multiset(rows) + multiset{r}
  {
    if rows == [] || !Before(rows[0], r, kind) {
    } else {
      var tail := Insert(r, rows[1..], kind);
      assert rows == [rows[0]] + rows[1..];
      InsertKeepsOrder(r, rows[1..], kind);
      forall j | 0 <= j < |tail| ensures !Before(tail[j], rows[0], kind) {
        assert tail[j] in multiset(tail);
        assert tail[j] == r || tail[j] in rows[1..];
      }
    }
  }

  lemma {:induction false} FirstFitOfInsert(r: MatrixRule, rows: seq<MatrixRule>, kind: string, groups: seq<int>)
    requires Ordered(rows, kind)
    ensures FirstFit(Insert(r, rows, kind), groups) ==
            var f := FirstFit(rows, groups);
            if !FitsRequester(r, groups) || (f.Some? && Before(f.value, r, kind)) then f else Some(r)
  {
    if rows == [] {
    } else if !Before(rows[0], r, kind) {
      FirstFitIsARow(rows, groups);
      assert ([r] + rows)[1..] == rows;
    } else {
      FirstFitOfInsert(r, rows[1..], kind, groups);
      assert ([rows[0]] + Insert(r, rows[1..], kind))[1..] == Insert(r, rows[1..], kind);
    }
  }

  lemma {:induction false} FirstFitIsARow(rows: seq<MatrixRule>, groups: seq<int>)
    ensures var f := FirstFit(rows, groups); f.Some? ==> exists i | 0 <= i < |rows| :: rows[i] == f.value
  {
    if rows != [] && !FitsRequester(rows[0], groups) {
      FirstFitIsARow(rows[1..], groups);
      var f := FirstFit(rows[1..], groups);
      if f.Some? {
        var i :| 0 <= i < |rows[1..]| && rows[1..][i] == f.value;
        assert rows[i + 1] == f.value;
      }
    }
  }

  lemma {:induction false} OrderedRowsOrdered(rules: seq<MatrixRule>, kind: string, tier: int)
    ensures Ordered(OrderedRows(rules, kind, tier), kind)
  {
    if rules != [] {
      OrderedRowsOrdered(rules[1..], kind, tier);
      if Selected(rules[0], kind, tier) {
        InsertKeepsOrder(rules[0], OrderedRows(rules[1..], kind, tier), kind);
      }
    }
  }

  /** Scanning the ordered rows for the first that fits is the same as the order-free choice. */
  lemma {:induction false} ScanFindsBestRule(rules: seq<MatrixRule>, kind: string, tier: int, groups: seq<int>)
    ensures FirstFit(OrderedRows(rules, kind, tier), groups) == BestRule(rules, kind, tier, groups)
  {
    if rules != [] {
      ScanFindsBestRule(rules[1..], kind, tier, groups);
      OrderedRowsOrdered(rules[1..], kind, tier);
      if Selected(rules[0], kind, tier) {
        FirstFitOfInsert(rules[0], OrderedRows(rules[1..], kind, tier), kind, groups);
      }
    }
  }

  /** The group-membership test: a set built from one list, probed with the other. */
  method AnyIntersection(a: seq<int>, b: seq<int>) returns (found: bool)
    ensures found == Meets(a, b)
    ensures found <==> exists g :: g in a && g in b
  {
    MeetsMeans(a, b);
    var seen: set<int> := {};
    for i := 0 to |a|
      invariant seen == set k | 0 <= k < i :: a[k]
    {
      seen := seen + {a[i]};
    }
    for j := 0 to |b|
      invariant forall k | 0 <= k < j :: b[k] !in a
    {
      if b[j] in seen {
        assert b[j] in a;
        return true;
      }
      assert b[j] !in a;
    }
    return false;
  }

  method FindRule(rules: seq<MatrixRule>, kind: string, tier: int, groups: seq<int>) returns (r: Option<MatrixRule>)
    ensures r == BestRule(rules, kind, tier, groups)
  {
    var rows := OrderedRows(rules, kind, tier);
    ScanFindsBestRule(rules, kind, tier, groups);
    for i := 0 to |rows|
      invariant FirstFit(rows, groups) == FirstFit(rows[i..], groups)
    {
      var fits := rows[i].requesterGroups == [];
      if !fits {
        fits := AnyIntersection(rows[i].requesterGroups, groups);
      }
      if fits {
        return Some(rows[i]);
      }
      assert rows[i..][1..] == rows[i + 1..];
    }
    return None;
  }

  /** Create and Update never store a threshold below one. */
  function Floored(r: MatrixRule): MatrixRule {
    if r.requiredApprovals < 1 then r.(requiredApprovals := 1) else r
  }

  /** Create: a blank kind means every kind; the id is the one the table assigns. */
  function CreateRule(rules: seq<MatrixRule>, r: MatrixRule, id: int): seq<MatrixRule> {
    if r.name == "" || exists x | x in rules :: x.id == id then rules
    else rules + [Floored(r.(id := id, targetKind := if r.targetKind == "" then "*" else r.targetKind))]
  }

  function UpdateRule(rules: seq<MatrixRule>, r: MatrixRule): (out: seq<MatrixRule>)
  {
    if rules == [] || r.id <= 0 then rules
    else [if rules[0].id == r.id then Floored(r) else rules[0]] + UpdateRule(rules[1..], r)
  }

  function DeleteRule(rules: seq<MatrixRule>, id: int): seq<MatrixRule> {
    if rules == [] then []
    else (if rules[0].id == id then [] else [rules[0]]) + DeleteRule(rules[1..], id)
  }

  ghost predicate ThresholdsPositive(rules: seq<MatrixRule>) {
    forall r | r in rules :: r.requiredApprovals >= 1
  }

  lemma {:induction false} UpdateKeepsThresholds(rules: seq<MatrixRule>, r: MatrixRule)
    requires ThresholdsPositive(rules)
    ensures ThresholdsPositive(UpdateRule(rules, r))
  {
    if rules != [] && r.id > 0 {
      assert forall x | x in rules[1..] :: x in rules;
      UpdateKeepsThresholds(rules[1..], r);
    }
  }

  lemma {:induction false} DeleteKeepsThresholds(rules: seq<MatrixRule>, id: int)
    requires ThresholdsPositive(rules)
    ensures ThresholdsPositive(DeleteRule(rules, id))
  {
    if rules != [] {
      assert forall x | x in rules[1..] :: x in rules;
      DeleteKeepsThresholds(rules[1..], id);
    }
  }
}
