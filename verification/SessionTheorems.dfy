/** Rows and credentials stay in step, in every interleaving of ends and of launches that do no harm; and which ones do. */
module SessionTheorems {
  import opened Option
  import opened SessionVault

  lemma NameIsSecret(l: Launch)
    requires WellFormed(l)
    ensures SecretOf(l.id) == Some(NameOf(l)) && Brokered(l.id)
  {
    assert l.id[0] == 'w' || l.id[0] == 'd';
  }

  // ---------------------------------------------------------------- one call moves on

  /** What the call that moves must leave behind, for the others and for itself. */
  ghost predicate MovesWell(s: System, s': System, call: nat) {
    && (forall c | c in s.calls && c != call :: c in s'.calls && s'.calls[c] == s.calls[c])
    && (forall c | c in s'.calls && c != call :: c in s.calls)
    && Supplied(s'.rows, s'.vault) && s.rows.Keys <= s'.rows.Keys
    && (call in s'.calls ==> CallInv(s'.rows, s'.vault, s'.calls[call]))
    && (forall id | Brokered(id) && SecretOf(id).value in s'.vault ::
          Active(s'.rows, id) || (call in s'.calls && Holds(s'.calls[call], id))
          || (exists c :: c in s.calls && c != call && Holds(s.calls[c], id)))
    && (forall c | c in s.calls && c != call :: CallInv(s'.rows, s'.vault, s.calls[c]))
  }

  predicate SameLaunch(s: System, s': System, call: nat) {
    call in s'.calls && LaunchOf(s'.calls[call]).Some? ==> call in s.calls && LaunchOf(s.calls[call]) == LaunchOf(s'.calls[call])
  }

  lemma MovingKeeps(s: System, s': System, call: nat)
    requires Inv(s) && MovesWell(s, s', call) && SameLaunch(s, s', call)
    ensures Inv(s')
  {
    forall id | Brokered(id) && SecretOf(id).value in s'.vault
      ensures Active(s'.rows, id) || exists c :: c in s'.calls && Holds(s'.calls[c], id)
    {
      if !Active(s'.rows, id) && !(call in s'.calls && Holds(s'.calls[call], id)) {
        var c :| c in s.calls && c != call && Holds(s.calls[c], id);
        assert c in s'.calls && Holds(s'.calls[c], id);
      }
    }
    ApartKept(s, s', call);
  }

  lemma ApartKept(s: System, s': System, call: nat)
    requires Apart(s.rows, s.calls) && SameLaunch(s, s', call) && s.rows.Keys <= s'.rows.Keys
    requires forall c | c in s'.calls && c != call :: c in s.calls && s'.calls[c] == s.calls[c]
    ensures Apart(s'.rows, s'.calls)
  {
    forall c, d | c in s'.calls && d in s'.calls && LaunchOf(s'.calls[c]).Some? && Launches(s'.calls[d], LaunchOf(s'.calls[c]).value.id)
      ensures c == d || LaunchOf(s'.calls[c]).value.id in s'.rows
    {
      assert LaunchOf(s.calls[c]) == LaunchOf(s'.calls[c]) && LaunchOf(s.calls[d]) == LaunchOf(s'.calls[d]);
      assert Launches(s.calls[d], LaunchOf(s.calls[c]).value.id);
    }
  }

  /** Nothing in the tables changes, and the call lets go of nothing it held. */
  lemma OnlyPcMoves(s: System, call: nat, pc: Pc)
    requires Inv(s) && call in s.calls && CallInv(s.rows, s.vault, pc)
    requires LaunchOf(pc).Some? ==> LaunchOf(pc) == LaunchOf(s.calls[call])
    requires forall id :: Holds(s.calls[call], id) ==> Holds(pc, id)
    ensures Inv(At(s, call, pc))
  {
    HeldElsewhere(s, call);
    assert MovesWell(s, At(s, call, pc), call);
    MovingKeeps(s, At(s, call, pc), call);
  }

  /** The call ends holding nothing that is not an active row's. */
  lemma Finishes(s: System, call: nat)
    requires Inv(s) && call in s.calls
    requires forall id :: Brokered(id) && SecretOf(id).value in s.vault && Holds(s.calls[call], id) ==> Active(s.rows, id)
    ensures Inv(Finished(s, call))
  {
    HeldElsewhere(s, call);
    assert MovesWell(s, Finished(s, call), call);
    MovingKeeps(s, Finished(s, call), call);
  }

  lemma HeldElsewhere(s: System, call: nat)
    requires Inv(s) && call in s.calls
    ensures forall id | Brokered(id) && SecretOf(id).value in s.vault ::
              Active(s.rows, id) || Holds(s.calls[call], id) || exists c :: c in s.calls && c != call && Holds(s.calls[c], id)
  {
    forall id | Brokered(id) && SecretOf(id).value in s.vault
      ensures Active(s.rows, id) || Holds(s.calls[call], id) || exists c :: c in s.calls && c != call && Holds(s.calls[c], id)
    {
      if !Active(s.rows, id) {
        var c :| c in s.calls && Holds(s.calls[c], id);
      }
    }
  }

  lemma ContinueKeeps(s: System, call: nat, todo: seq<string>, next: Option<Launch>)
    requires Inv(s) && call in s.calls
    requires LaunchOf(s.calls[call]) == next && (next.Some? && Active(s.rows, next.value.id) ==> next.value.id in todo)
    requires forall id :: Brokered(id) && SecretOf(id).value in s.vault && Holds(s.calls[call], id) ==> Active(s.rows, id)
    ensures Inv(Continue(s, call, todo, next))
  {
    HeldElsewhere(s, call);
    var s' := Continue(s, call, todo, next);
    assert CallInv(s.rows, s.vault, s.calls[call]);
    assert MovesWell(s, s', call);
    MovingKeeps(s, s', call);
  }

  // ---------------------------------------------------------------- the statements

  /** Ending a row hurts no one's reliance on the tables. */
  lemma EndRowKeepsCalls(rows: Rows, vault: Vault, id: string, pc: Pc)
    requires Active(rows, id) && CallInv(rows, vault, pc)
    ensures CallInv(EndRow(rows, id), vault, pc)
  {
  }

  lemma EndActiveKeeps(s: System, call: nat, id: string, todo: seq<string>, next: Option<Launch>)
    requires Inv(s) && call in s.calls && s.calls[call] == Ending([id] + todo, next) && Active(s.rows, id)
    ensures Inv(At(s.(rows := EndRow(s.rows, id)), call, Deleting(id, todo, next)))
  {
    var s' := At(s.(rows := EndRow(s.rows, id)), call, Deleting(id, todo, next));
    assert CallInv(s.rows, s.vault, s.calls[call]);
    HeldElsewhere(s, call);
    forall c | c in s.calls && c != call ensures CallInv(s'.rows, s'.vault, s.calls[c]) {
      EndRowKeepsCalls(s.rows, s.vault, id, s.calls[c]);
    }
    assert MovesWell(s, s', call);
    MovingKeeps(s, s', call);
  }

  lemma EndingKeeps(s: System, call: nat, todo: seq<string>, next: Option<Launch>)
    requires Inv(s) && call in s.calls && s.calls[call] == Ending(todo, next)
    ensures Inv(StepEnding(s, call, todo, next))
  {
    assert todo != [] ==> todo == [todo[0]] + todo[1..];
    if todo != [] && Active(s.rows, todo[0]) {
      EndActiveKeeps(s, call, todo[0], todo[1..], next);
    } else {
      assert CallInv(s.rows, s.vault, s.calls[call]);
      ContinueKeeps(s, call, if todo == [] then todo else todo[1..], next);
    }
  }

  /** Taking a secret away hurts no one, if its session is not active and no other call is about to insert it. */
  lemma DeletingSecret(s: System, call: nat, id: string)
    requires Inv(s) && call in s.calls && SecretOf(id).Some? && !Active(s.rows, id)
    requires forall c | c in s.calls && c != call && Launches(s.calls[c], id) :: id in s.rows
    ensures var vault := DeleteSecret(s.vault, SecretOf(id).value);
            && Supplied(s.rows, vault)
            && (forall c | c in s.calls && c != call :: CallInv(s.rows, vault, s.calls[c]))
            && (forall d | Brokered(d) && SecretOf(d).value in vault :: d != id && SecretOf(d).value in s.vault)
  {
    var vault := DeleteSecret(s.vault, SecretOf(id).value);
    forall d | Active(s.rows, d) && Brokered(d)
      ensures SecretOf(d).value in vault && vault[SecretOf(d).value] == s.rows[d].creds
    {
      if SecretOf(d) == SecretOf(id) { SecretsAreDistinct(d, id); }
    }
    forall c | c in s.calls && c != call ensures CallInv(s.rows, vault, s.calls[c]) {
      assert CallInv(s.rows, s.vault, s.calls[c]);
      if s.calls[c].Inserting? {
        var l := s.calls[c].launch;
        NameIsSecret(l);
        if NameOf(l) == SecretOf(id).value { SecretsAreDistinct(l.id, id); }
      }
    }
  }

  lemma DeletingKeeps(s: System, call: nat, id: string, todo: seq<string>, next: Option<Launch>)
    requires Inv(s) && call in s.calls && s.calls[call] == Deleting(id, todo, next)
    ensures Inv(StepDeleting(s, call, id, todo, next))
  {
    assert CallInv(s.rows, s.vault, s.calls[call]);
    var s' := StepDeleting(s, call, id, todo, next);
    HeldElsewhere(s, call);
    if SecretOf(id).Some? {
      DeletingSecret(s, call, id);
    }
    assert MovesWell(s, s', call);
    MovingKeeps(s, s', call);
  }

  lemma RollingBackKeeps(s: System, call: nat, l: Launch)
    requires Inv(s) && call in s.calls && s.calls[call] == RollingBack(l)
    ensures Inv(Finished(s.(vault := DeleteSecret(s.vault, NameOf(l))), call))
  {
    assert CallInv(s.rows, s.vault, s.calls[call]);
    NameIsSecret(l);
    HeldElsewhere(s, call);
    DeletingSecret(s, call, l.id);
    var s' := Finished(s.(vault := DeleteSecret(s.vault, NameOf(l))), call);
    assert MovesWell(s, s', call);
    MovingKeeps(s, s', call);
  }

  lemma PuttingKeeps(s: System, call: nat, l: Launch)
    requires Inv(s) && call in s.calls && s.calls[call] == Putting(l)
    ensures Inv(At(s.(vault := s.vault[NameOf(l) := l.creds]), call, Inserting(l)))
  {
    assert CallInv(s.rows, s.vault, s.calls[call]);
    NameIsSecret(l);
    HeldElsewhere(s, call);
    var s' := At(s.(vault := s.vault[NameOf(l) := l.creds]), call, Inserting(l));
    forall d | Active(s.rows, d) && Brokered(d)
      ensures SecretOf(d).value in s'.vault && s'.vault[SecretOf(d).value] == s.rows[d].creds
    {
      if SecretOf(d).value == NameOf(l) { SecretsAreDistinct(d, l.id); }
    }
    forall d | Brokered(d) && SecretOf(d).value in s'.vault ensures d == l.id || SecretOf(d).value in s.vault {
      if SecretOf(d).value == NameOf(l) { SecretsAreDistinct(d, l.id); }
    }
    forall c | c in s.calls && c != call ensures CallInv(s.rows, s'.vault, s.calls[c]) {
      assert CallInv(s.rows, s.vault, s.calls[c]);
      if s.calls[c].Inserting? {
        var m := s.calls[c].launch;
        NameIsSecret(m);
        assert Launches(s.calls[c], l.id) ==> l.id in s.rows;
        if NameOf(m) == NameOf(l) { SecretsAreDistinct(m.id, l.id); }
      }
    }
    assert MovesWell(s, s', call);
    MovingKeeps(s, s', call);
  }

  lemma InsertKeeps(s: System, call: nat, l: Launch, fails: bool)
    requires Inv(s) && call in s.calls && s.calls[call] == Inserting(l)
    ensures Inv(StepInsert(s, call, l, fails))
  {
    assert CallInv(s.rows, s.vault, s.calls[call]);
    if fails || l.id in s.rows {
      OnlyPcMoves(s, call, RollingBack(l));
    } else {
      NameIsSecret(l);
      HeldElsewhere(s, call);
      var s' := StepInsert(s, call, l, fails);
      forall c | c in s.calls && c != call ensures CallInv(s'.rows, s.vault, s.calls[c]) {
        assert CallInv(s.rows, s.vault, s.calls[c]);
        assert !Launches(s.calls[c], l.id);
      }
      assert MovesWell(s, s', call);
      MovingKeeps(s, s', call);
    }
  }

  lemma BeginLaunchKeeps(s: System, call: nat, l: Launch)
    requires Inv(s) && call !in s.calls && WellFormed(l) && Harmless(s, l)
    ensures Inv(At(s, call, Querying(l)))
  {
    var s' := At(s, call, Querying(l));
    forall id | Brokered(id) && SecretOf(id).value in s'.vault
      ensures Active(s'.rows, id) || exists c :: c in s'.calls && Holds(s'.calls[c], id)
    {
      if !Active(s.rows, id) {
        var c :| c in s.calls && Holds(s.calls[c], id);
        assert c in s'.calls && Holds(s'.calls[c], id);
      }
    }
  }

  lemma BeginEndKeeps(s: System, call: nat, id: string)
    requires Inv(s) && call !in s.calls
    ensures Inv(At(s, call, Ending([id], None)))
  {
    var s' := At(s, call, Ending([id], None));
    forall d | Brokered(d) && SecretOf(d).value in s'.vault
      ensures Active(s'.rows, d) || exists c :: c in s'.calls && Holds(s'.calls[c], d)
    {
      if !Active(s.rows, d) {
        var c :| c in s.calls && Holds(s.calls[c], d);
        assert c in s'.calls && Holds(s'.calls[c], d);
      }
    }
  }

  lemma OtherSessionKeeps(s: System, id: string, row: Row)
    requires Inv(s) && id !in s.rows && !Brokered(id)
    ensures Inv(s.(rows := s.rows[id := row]))
  {
    var s' := s.(rows := s.rows[id := row]);
    forall c | c in s.calls ensures CallInv(s'.rows, s'.vault, s.calls[c]) {
      assert CallInv(s.rows, s.vault, s.calls[c]);
      if LaunchOf(s.calls[c]).Some? { NameIsSecret(LaunchOf(s.calls[c]).value); }
    }
    forall d | Brokered(d) && SecretOf(d).value in s'.vault
      ensures Active(s'.rows, d) || exists c :: c in s'.calls && Holds(s'.calls[c], d)
    {
      if !Active(s.rows, d) {
        var c :| c in s.calls && Holds(s.calls[c], d);
        assert c in s'.calls && Holds(s'.calls[c], d);
      }
    }
  }

  lemma CallKeeps(s: System, call: nat)
    requires Inv(s) && call in s.calls
    ensures Inv(StepCall(s, call))
  {
    match s.calls[call]
    case Ending(todo, next) => EndingKeeps(s, call, todo, next);
    case Deleting(id, todo, next) => DeletingKeeps(s, call, id, todo, next);
    case Putting(l) => PuttingKeeps(s, call, l);
    case RollingBack(l) => RollingBackKeeps(s, call, l);
    case _ =>
  }

  lemma StepKeeps(s: System, a: Action)
    requires Inv(s) && (a.BeginLaunch? ==> Harmless(s, a.launch))
    ensures Inv(Apply(s, a))
  {
    match a
    case BeginLaunch(call, l) => if call !in s.calls && WellFormed(l) { BeginLaunchKeeps(s, call, l); }
    case BeginEnd(call, id) => if call !in s.calls { BeginEndKeeps(s, call, id); }
    case Query(call, ids) => QueryKeeps(s, call, ids);
    case Step(call) => if call in s.calls { CallKeeps(s, call); }
    case GiveUp(call) => if call in s.calls && s.calls[call].Putting? { Finishes(s, call); }
    case Insert(call, fails) => if call in s.calls && s.calls[call].Inserting? { InsertKeeps(s, call, s.calls[call].launch, fails); }
    case OtherSession(id, row) => if id !in s.rows && !Brokered(id) { OtherSessionKeeps(s, id, row); }
  }

  lemma QueryKeeps(s: System, call: nat, ids: seq<string>)
    requires Inv(s)
    ensures Inv(Apply(s, Query(call, ids)))
  {
    if call in s.calls && s.calls[call].Querying?
       && Lists(ids, OpenSessions(s.rows, s.calls[call].launch.user, s.calls[call].launch.target, s.calls[call].launch.protocol))
    {
      assert CallInv(s.rows, s.vault, s.calls[call]);
      OnlyPcMoves(s, call, Ending(ids, Some(s.calls[call].launch)));
    }
  }

  lemma {:induction false} RunKeeps(s: System, actions: seq<Action>)
    requires Inv(s) && HarmlessLaunches(s, actions)
    ensures Inv(Run(s, actions))
    decreases |actions|
  {
    if actions != [] {
      StepKeeps(s, actions[0]);
      RunKeeps(Apply(s, actions[0]), actions[1..]);
    }
  }

  // ---------------------------------------------------------------- main results

  /** In every interleaving whose launches are harmless where they begin, an active web or database session has
      exactly the credentials its launch stored; and when no call is in flight, an entry exists for the active ones
      only. */
  lemma CredentialsTrackSessions(actions: seq<Action>)
    requires HarmlessLaunches(EMPTY, actions)
    ensures var s := Run(EMPTY, actions);
            && (forall id | id in s.rows && !s.rows[id].ended && ("web-" <= id || "db-" <= id) ::
                  var name := (if "web-" <= id then "_web_session_" else "_db_session_") + id;
                  name in s.vault && s.vault[name] == s.rows[id].creds)
            && (s.calls == map[] ==>
                  forall id | "web-" <= id || "db-" <= id ::
                    (if "web-" <= id then "_web_session_" else "_db_session_") + id in s.vault
                    <==> id in s.rows && !s.rows[id].ended)
  {
    RunKeeps(EMPTY, actions);
    var s := Run(EMPTY, actions);
    forall id | "web-" <= id || "db-" <= id
      ensures Brokered(id) && SecretOf(id).value == (if "web-" <= id then "_web_session_" else "_db_session_") + id
    {
      NamesMean(id);
    }
    if s.calls == map[] {
      forall id | "web-" <= id || "db-" <= id
        ensures (if "web-" <= id then "_web_session_" else "_db_session_") + id in s.vault
                <==> id in s.rows && !s.rows[id].ended
      {
        assert Brokered(id) && (Active(s.rows, id) <==> id in s.rows && !s.rows[id].ended);
      }
    }
  }

  lemma NamesMean(id: string)
    ensures Brokered(id) <==> "web-" <= id || "db-" <= id
    ensures Brokered(id) ==> SecretOf(id) == Some((if "web-" <= id then "_web_session_" else "_db_session_") + id)
  {
    if "db-" <= id {
      assert id[0] == 'd' && "rdp-"[0] == 'r' && "web-"[0] == 'w';
    }
  }

  // ---------------------------------------------------------------- the harm others do

  predicate NoLaunch(actions: seq<Action>) {
    forall i | 0 <= i < |actions| :: !actions[i].BeginLaunch?
  }

  lemma {:induction false} NoLaunchIsHarmless(s: System, actions: seq<Action>)
    requires NoLaunch(actions)
    ensures HarmlessLaunches(s, actions)
    decreases |actions|
  {
    if actions != [] {
      NoLaunchIsHarmless(Apply(s, actions[0]), actions[1..]);
    }
  }

  lemma {:induction false} RunAppend(s: System, a: seq<Action>, b: seq<Action>)
    ensures Run(s, a + b) == Run(Run(s, a), b)
    decreases |a|
  {
    if a == [] {
      assert a + b == b;
    } else {
      assert (a + b)[0] == a[0] && (a + b)[1..] == a[1..] + b;
      RunAppend(Apply(s, a[0]), a[1..], b);
    }
  }

  lemma RunOne(s: System, a: Action)
    ensures Run(s, [a]) == Apply(s, a)
  {
    assert [a][1..] == [];
  }

  function Ids(todo: seq<string>): set<string> {
    set id | id in todo
  }

  lemma {:induction false} ListOf(found: set<string>) returns (ids: seq<string>)
    ensures Lists(ids, found)
    decreases found
  {
    ids := [];
    if id :| id in found {
      var rest := ListOf(found - {id});
      ids := [id] + rest;
      assert forall x | x in found :: x == id || x in found - {id};
    }
  }

  /** The launch has got to where it stores: nothing else has moved, and only listed rows have been ended. */
  ghost predicate Ready(s: System, s': System, call: nat, l: Launch, todo: set<string>) {
    && s'.calls == s.calls[call := Putting(l)] && s'.rows.Keys == s.rows.Keys
    && forall id | id in s.rows && id !in todo :: s'.rows[id] == s.rows[id]
  }

  lemma ReadyLater(s: System, s1: System, s2: System, call: nat, l: Launch, small: set<string>, large: set<string>)
    requires s1.rows.Keys == s.rows.Keys && (forall id | id in s.rows && id !in large :: s1.rows[id] == s.rows[id])
    requires (forall c | c in s.calls && c != call :: c in s1.calls && s1.calls[c] == s.calls[c]) && s1.calls.Keys == s.calls.Keys
    requires call in s.calls && small <= large && Ready(s1, s2, call, l, small)
    ensures Ready(s, s2, call, l, large)
  {
  }

  /** Having queried, a launch can end what it listed and get ready, with no other call moving. */
  lemma {:induction false} GetReady(s: System, call: nat, todo: seq<string>, l: Launch) returns (steps: seq<Action>)
    requires call in s.calls && s.calls[call] == Ending(todo, Some(l))
    ensures NoLaunch(steps) && Ready(s, Run(s, steps), call, l, Ids(todo))
    decreases |todo|
  {
    var all := Ids(todo);
    var s1 := Apply(s, Step(call));
    RunOne(s, Step(call));
    if todo == [] {
      steps := [Step(call)];
    } else if Active(s.rows, todo[0]) {
      var s2 := Apply(s1, Step(call));
      RunOne(s1, Step(call));
      RunAppend(s, [Step(call)], [Step(call)]);
      if todo[1..] == [] {
        steps := [Step(call)] + [Step(call)];
      } else {
        var more := GetReady(s2, call, todo[1..], l);
        steps := [Step(call)] + [Step(call)] + more;
        RunAppend(s, [Step(call)] + [Step(call)], more);
        ReadyLater(s, s2, Run(s2, more), call, l, Ids(todo[1..]), all);
      }
    } else if todo[1..] == [] {
      steps := [Step(call)];
    } else {
      var more := GetReady(s1, call, todo[1..], l);
      steps := [Step(call)] + more;
      RunAppend(s, [Step(call)], more);
      ReadyLater(s, s1, Run(s1, more), call, l, Ids(todo[1..]), all);
    }
  }

  /** A launch that has not stored yet can get ready. */
  lemma AnyGetsReady(s: System, call: nat, l: Launch) returns (steps: seq<Action>)
    requires call in s.calls && LaunchOf(s.calls[call]) == Some(l) && !s.calls[call].Inserting? && !s.calls[call].RollingBack?
    ensures NoLaunch(steps)
    ensures Run(s, steps).calls == s.calls[call := Putting(l)] && Run(s, steps).rows.Keys == s.rows.Keys
  {
    match s.calls[call]
    case Querying(_) =>
      var _, more := QueryAndGetReady(s, call, l);
      steps := more;
    case Ending(todo, _) => steps := GetReady(s, call, todo, l);
    case Deleting(_, todo, _) =>
      var s1 := Apply(s, Step(call));
      RunOne(s, Step(call));
      steps := [Step(call)];
      if todo != [] {
        var more := GetReady(s1, call, todo, l);
        RunAppend(s, [Step(call)], more);
        steps := [Step(call)] + more;
      }
    case Putting(_) => steps := [];
  }

  lemma QueryAndGetReady(s: System, call: nat, l: Launch) returns (ids: seq<string>, steps: seq<Action>)
    requires call in s.calls && s.calls[call] == Querying(l)
    ensures NoLaunch(steps) && Lists(ids, OpenSessions(s.rows, l.user, l.target, l.protocol))
    ensures Ready(s, Run(s, steps), call, l, Ids(ids))
  {
    ids := ListOf(OpenSessions(s.rows, l.user, l.target, l.protocol));
    var s1 := Apply(s, Query(call, ids));
    RunOne(s, Query(call, ids));
    var more := GetReady(s1, call, ids, l);
    RunAppend(s, [Query(call, ids)], more);
    steps := [Query(call, ids)] + more;
    ReadyLater(s, s1, Run(s1, more), call, l, Ids(ids), Ids(ids));
  }

  function StoreSteps(call: nat): seq<Action> {
    [Step(call)] + ([Insert(call, false)] + [Step(call)])
  }

  /** Storing over an active session ends in a rollback that takes its credentials away. */
  lemma StoringOverActive(s: System, call: nat, l: Launch)
    requires call in s.calls && s.calls[call] == Putting(l) && WellFormed(l) && Active(s.rows, l.id)
    ensures !Supplied(Run(s, StoreSteps(call)).rows, Run(s, StoreSteps(call)).vault)
  {
    NameIsSecret(l);
    var s1 := Apply(s, Step(call));
    var s2 := Apply(s1, Insert(call, false));
    var s3 := Apply(s2, Step(call));
    RunAppend(s, [Step(call)], [Insert(call, false)] + [Step(call)]);
    RunAppend(s1, [Insert(call, false)], [Step(call)]);
    RunOne(s, Step(call));
    RunOne(s1, Insert(call, false));
    RunOne(s2, Step(call));
    assert Active(s3.rows, l.id) && Brokered(l.id) && SecretOf(l.id).value !in s3.vault;
  }

  /** An id that is active and not about to be superseded. */
  lemma ActiveIdHarms(s: System, call: nat, l: Launch) returns (steps: seq<Action>)
    requires call in s.calls && s.calls[call] == Querying(l) && WellFormed(l)
    requires Active(s.rows, l.id) && !Superseded(s.rows[l.id], l.user, l.target, l.protocol)
    ensures NoLaunch(steps) && !Supplied(Run(s, steps).rows, Run(s, steps).vault)
  {
    var ids, first := QueryAndGetReady(s, call, l);
    RunAppend(s, first, StoreSteps(call));
    StoringOverActive(Run(s, first), call, l);
    steps := first + StoreSteps(call);
  }

  /** The other launch inserts its row first; this one then stores over it. */
  lemma OtherInsertsFirst(s: System, call: nat, l: Launch, other: nat, m: Launch) returns (steps: seq<Action>)
    requires call in s.calls && other in s.calls && call != other && s.calls[call] == Putting(l)
    requires s.calls[other] == Putting(m) || s.calls[other] == Inserting(m)
    requires WellFormed(l) && m.id == l.id && l.id !in s.rows
    ensures NoLaunch(steps) && !Supplied(Run(s, steps).rows, Run(s, steps).vault)
  {
    var first := if s.calls[other].Putting? then [Step(other)] else [];
    var s1 := if s.calls[other].Putting? then Apply(s, Step(other)) else s;
    if s.calls[other].Putting? { RunOne(s, Step(other)); }
    assert s1.calls[other] == Inserting(m) && s1.calls[call] == Putting(l) && s1.rows == s.rows;
    var s2 := Apply(s1, Insert(other, false));
    RunOne(s1, Insert(other, false));
    RunAppend(s, first, [Insert(other, false)]);
    RunAppend(s, first + [Insert(other, false)], StoreSteps(call));
    StoringOverActive(s2, call, l);
    steps := first + [Insert(other, false)] + StoreSteps(call);
  }

  /** This launch inserts its row; the other's rollback then takes its credentials away. */
  lemma OtherRollsBackLast(s: System, call: nat, l: Launch, other: nat, m: Launch)
    requires call in s.calls && other in s.calls && call != other && s.calls[call] == Putting(l) && s.calls[other] == RollingBack(m)
    requires WellFormed(l) && WellFormed(m) && m.id == l.id && l.id !in s.rows
    ensures var steps := [Step(call)] + ([Insert(call, false)] + [Step(other)]);
            !Supplied(Run(s, steps).rows, Run(s, steps).vault)
  {
    NameIsSecret(l);
    NameIsSecret(m);
    var s1 := Apply(s, Step(call));
    var s2 := Apply(s1, Insert(call, false));
    var s3 := Apply(s2, Step(other));
    RunAppend(s, [Step(call)], [Insert(call, false)] + [Step(other)]);
    RunAppend(s1, [Insert(call, false)], [Step(other)]);
    RunOne(s, Step(call));
    RunOne(s1, Insert(call, false));
    RunOne(s2, Step(other));
    assert Active(s3.rows, l.id) && Brokered(l.id) && SecretOf(l.id).value !in s3.vault;
  }

  /** An id that another launch in flight is to insert. */
  lemma SharedIdHarms(s: System, call: nat, l: Launch, other: nat) returns (steps: seq<Action>)
    requires call in s.calls && s.calls[call] == Querying(l) && WellFormed(l) && l.id !in s.rows
    requires other in s.calls && other != call && Launches(s.calls[other], l.id) && WellFormed(LaunchOf(s.calls[other]).value)
    ensures NoLaunch(steps) && !Supplied(Run(s, steps).rows, Run(s, steps).vault)
  {
    var m := LaunchOf(s.calls[other]).value;
    var first := AnyGetsReady(s, call, l);
    var s1 := Run(s, first);
    if s.calls[other].RollingBack? {
      OtherRollsBackLast(s1, call, l, other, m);
      var last := [Step(call)] + ([Insert(call, false)] + [Step(other)]);
      RunAppend(s, first, last);
      steps := first + last;
    } else if s.calls[other].Inserting? {
      var last := OtherInsertsFirst(s1, call, l, other, m);
      RunAppend(s, first, last);
      steps := first + last;
    } else {
      var second := AnyGetsReady(s1, other, m);
      var s2 := Run(s1, second);
      var last := OtherInsertsFirst(s2, call, l, other, m);
      RunAppend(s1, second, last);
      RunAppend(s, first, second + last);
      steps := first + (second + last);
    }
  }

  /** Whatever happens next, if only harmless launches begin: every active brokered session has its credentials. */
  ghost predicate StaysSupplied(s: System) {
    forall more | HarmlessLaunches(s, more) :: Supplied(Run(s, more).rows, Run(s, more).vault)
  }

  /** A launch may begin without ever costing a session its credentials, exactly when no other launch in flight is to
      insert its id, or the row is there already and is ended or about to be superseded by this very launch. */
  lemma LaunchHarmlessExactly(s: System, call: nat, l: Launch)
    requires Inv(s) && call !in s.calls && WellFormed(l)
    ensures Harmless(s, l) <==> StaysSupplied(Apply(s, BeginLaunch(call, l)))
  {
    var s1 := Apply(s, BeginLaunch(call, l));
    if Harmless(s, l) {
      StepKeeps(s, BeginLaunch(call, l));
      forall more | HarmlessLaunches(s1, more) ensures Supplied(Run(s1, more).rows, Run(s1, more).vault) {
        RunKeeps(s1, more);
      }
    } else if l.id in s.rows {
      var steps := ActiveIdHarms(s1, call, l);
      NoLaunchIsHarmless(s1, steps);
    } else {
      var other :| other in s.calls && Launches(s.calls[other], l.id);
      assert CallInv(s.rows, s.vault, s.calls[other]);
      var steps := SharedIdHarms(s1, call, l, other);
      NoLaunchIsHarmless(s1, steps);
    }
  }
}
