/**
 Brokered web and database sessions: the row in the sessions table and the credentials in the vault.  A launch
 ends the user's older sessions on the target, stores the credentials, inserts the row, and takes the
 credentials back if the insert fails; an end closes the row and then deletes the credentials.  Each SQL
 statement is one step, and any number of calls interleave.
 */
module SessionVault {
  import opened Option

  /** `creds` is history: what the session's launch stored. */
  datatype Row = Row(user: int, target: int, protocol: string, ended: bool, creds: string)

  datatype Launch = Launch(id: string, user: int, target: int, protocol: string, creds: string)

  predicate HasPrefix(s: string, prefix: string) {
    prefix <= s
  }

  function WebVaultSecretName(id: string): string {
    "_web_session_" + id
  }

  function DbVaultSecretName(id: string): string {
    "_db_session_" + id
  }

  /** The vault entry that ending a session deletes. */
  function SecretOf(id: string): Option<string> {
    if HasPrefix(id, "web-") then Some(WebVaultSecretName(id))
    else if HasPrefix(id, "rdp-") then Some("_rdp_session_" + id)
    else if HasPrefix(id, "db-") then Some(DbVaultSecretName(id))
    else None
  }

  /** Sessions whose credentials a launch puts in the vault. */
  predicate Brokered(id: string) {
    HasPrefix(id, "web-") || HasPrefix(id, "db-")
  }

  lemma SecretsAreDistinct(a: string, b: string)
    requires SecretOf(a).Some? && SecretOf(a) == SecretOf(b)
    ensures a == b
  {
    var name := SecretOf(a).value;
    assert name[1] == 'w' || name[1] == 'r' || name[1] == 'd';
    var n := if name[1] == 'd' then |"_db_session_"| else |"_web_session_"|;
    assert name[n..] == a && name[n..] == b;
  }

  type Rows = map<string, Row>
  type Vault = map<string, string>

  predicate Active(rows: Rows, id: string) {
    id in rows && !rows[id].ended
  }

  // ---------------------------------------------------------------- the statements

  /** UPDATE ... SET ended_at WHERE id = ? AND ended_at IS NULL. */
  function EndRow(rows: Rows, id: string): Rows {
    if Active(rows, id) then rows[id := rows[id].(ended := true)] else rows
  }

  function DeleteSecret(vault: Vault, name: string): Vault {
    map n | n in vault && n != name :: vault[n]
  }

  function NewRow(l: Launch): Row {
    Row(l.user, l.target, l.protocol, false, l.creds)
  }

  /** The open sessions of a user on a target, of one protocol or of all. */
  predicate Superseded(row: Row, user: int, target: int, protocol: string) {
    row.user == user && row.target == target && !row.ended && (protocol != "" ==> row.protocol == protocol)
  }

  function OpenSessions(rows: Rows, user: int, target: int, protocol: string): set<string> {
    set id | id in rows && Superseded(rows[id], user, target, protocol)
  }

  /** A query's result, in whatever order. */
  predicate Lists(ids: seq<string>, found: set<string>) {
    (forall i | 0 <= i < |ids| :: ids[i] in found) && forall id | id in found :: id in ids
  }

  // ---------------------------------------------------------------- calls in flight

  /** Where a call stands; `next` is the launch it goes on with once the sessions in `todo` are ended. */
  datatype Pc =
    | Querying(launch: Launch)
    | Ending(todo: seq<string>, next: Option<Launch>)
    | Deleting(id: string, todo: seq<string>, next: Option<Launch>)
    | Putting(launch: Launch)
    | Inserting(launch: Launch)
    | RollingBack(launch: Launch)

  datatype System = System(rows: Rows, vault: Vault, calls: map<nat, Pc>)

  /** `call` names a call in flight. */
  datatype Action =
    | BeginLaunch(call: nat, launch: Launch)
    | BeginEnd(call: nat, id: string)
    | Query(call: nat, ids: seq<string>)
    | Step(call: nat)
    | GiveUp(call: nat)                  // no account, no approval, no entropy: before anything is stored
    | Insert(call: nat, fails: bool)
    | OtherSession(id: string, row: Row) // ssh and rdp sessions share the table

  function Finished(s: System, call: nat): System {
    s.(calls := map c | c in s.calls && c != call :: s.calls[c])
  }

  function At(s: System, call: nat, pc: Pc): System {
    s.(calls := s.calls[call := pc])
  }

  /** After one session of the list is dealt with. */
  function Continue(s: System, call: nat, todo: seq<string>, next: Option<Launch>): System {
    if todo != [] then At(s, call, Ending(todo, next))
    else if next.Some? then At(s, call, Putting(next.value))
    else Finished(s, call)
  }

  function StepEnding(s: System, call: nat, todo: seq<string>, next: Option<Launch>): System {
    if todo == [] then Continue(s, call, todo, next)
    else
      var id := todo[0];
      if Active(s.rows, id) then
        At(s.(rows := EndRow(s.rows, id)), call, Deleting(id, todo[1..], next))
      else Continue(s, call, todo[1..], next)
  }

  function StepDeleting(s: System, call: nat, id: string, todo: seq<string>, next: Option<Launch>): System {
    Continue(s.(vault := if SecretOf(id).Some? then DeleteSecret(s.vault, SecretOf(id).value) else s.vault), call, todo, next)
  }

  function NameOf(l: Launch): string {
    if l.protocol == "web" then WebVaultSecretName(l.id) else DbVaultSecretName(l.id)
  }

  function StepCall(s: System, call: nat): System
    requires call in s.calls
  {
    match s.calls[call]
    case Ending(todo, next) => StepEnding(s, call, todo, next)
    case Deleting(id, todo, next) => StepDeleting(s, call, id, todo, next)
    case Putting(l) => At(s.(vault := s.vault[NameOf(l) := l.creds]), call, Inserting(l))
    case RollingBack(l) => Finished(s.(vault := DeleteSecret(s.vault, NameOf(l))), call)
    case _ => s
  }

  function StepInsert(s: System, call: nat, l: Launch, fails: bool): System {
    if fails || l.id in s.rows then At(s, call, RollingBack(l))
    else Finished(s.(rows := s.rows[l.id := NewRow(l)]), call)
  }

  /** The two kinds of launch, each with its own id prefix. */
  predicate WellFormed(l: Launch) {
    (l.protocol == "web" && HasPrefix(l.id, "web-")) || (l.protocol == "db" && HasPrefix(l.id, "db-"))
  }

  /** One atomic step; an action whose turn it is not does nothing. */
  function Apply(s: System, a: Action): System {
    match a
    case BeginLaunch(call, l) => if call !in s.calls && WellFormed(l) then At(s, call, Querying(l)) else s
    case BeginEnd(call, id) => if call !in s.calls then At(s, call, Ending([id], None)) else s
    case Query(call, ids) =>
      if call in s.calls && s.calls[call].Querying?
         && Lists(ids, OpenSessions(s.rows, s.calls[call].launch.user, s.calls[call].launch.target, s.calls[call].launch.protocol))
      then At(s, call, Ending(ids, Some(s.calls[call].launch)))
      else s
    case Step(call) => if call in s.calls then StepCall(s, call) else s
    case GiveUp(call) => if call in s.calls && s.calls[call].Putting? then Finished(s, call) else s
    case Insert(call, fails) =>
      if call in s.calls && s.calls[call].Inserting? then StepInsert(s, call, s.calls[call].launch, fails) else s
    case OtherSession(id, row) =>
      if id !in s.rows && !Brokered(id) then s.(rows := s.rows[id := row]) else s
  }

  function Run(s: System, actions: seq<Action>): System
    decreases |actions|
  {
    if actions == [] then s else Run(Apply(s, actions[0]), actions[1..])
  }

  const EMPTY := System(map[], map[], map[])

  // ---------------------------------------------------------------- which launches do no harm

  function LaunchOf(pc: Pc): Option<Launch> {
    match pc
    case Querying(l) => Some(l)
    case Ending(_, next) => next
    case Deleting(_, _, next) => next
    case Putting(l) => Some(l)
    case Inserting(l) => Some(l)
    case RollingBack(l) => Some(l)
  }

  predicate Launches(pc: Pc, id: string) {
    LaunchOf(pc).Some? && LaunchOf(pc).value.id == id
  }

  /** No other launch in flight is to insert the row; or the row is there already, and is ended or about to be
      superseded by this very launch. */
  predicate Harmless(s: System, l: Launch) {
    if l.id in s.rows then !s.rows[l.id].ended ==> Superseded(s.rows[l.id], l.user, l.target, l.protocol)
    else forall c | c in s.calls :: !Launches(s.calls[c], l.id)
  }

  /** Every launch of the run is harmless where it begins; one with a fresh id always is. */
  predicate HarmlessLaunches(s: System, actions: seq<Action>)
    decreases |actions|
  {
    actions != [] ==>
      && (actions[0].BeginLaunch? ==> Harmless(s, actions[0].launch))
      && HarmlessLaunches(Apply(s, actions[0]), actions[1..])
  }

  // ---------------------------------------------------------------- the invariant

  /** An active brokered session has the credentials its launch stored. */
  ghost predicate Supplied(rows: Rows, vault: Vault) {
    forall id | Active(rows, id) && Brokered(id) ::
      SecretOf(id).value in vault && vault[SecretOf(id).value] == rows[id].creds
  }

  /** This call is to delete the entry, or to insert the row that goes with it. */
  predicate Holds(pc: Pc, id: string) {
    match pc
    case Deleting(d, _, _) => d == id
    case Inserting(l) => l.id == id
    case RollingBack(l) => l.id == id
    case _ => false
  }

  /** A brokered session's entry belongs to an active row or to a call in flight. */
  ghost predicate Owned(s: System) {
    forall id | Brokered(id) && SecretOf(id).value in s.vault ::
      Active(s.rows, id) || exists c :: c in s.calls && Holds(s.calls[c], id)
  }

  /** A launch whose id is that of an active row ends that row before it stores anything. */
  predicate Clears(rows: Rows, pc: Pc, l: Launch) {
    Active(rows, l.id) ==>
      match pc
      case Querying(_) => Superseded(rows[l.id], l.user, l.target, l.protocol)
      case Ending(todo, _) => l.id in todo
      case Deleting(_, todo, _) => l.id in todo
      case _ => false
  }

  /** What one call relies on. */
  predicate CallInv(rows: Rows, vault: Vault, pc: Pc) {
    && (LaunchOf(pc).Some? ==> WellFormed(LaunchOf(pc).value) && Clears(rows, pc, LaunchOf(pc).value))
    && (pc.Deleting? ==> pc.id in rows && rows[pc.id].ended)
    && (pc.Inserting? && pc.launch.id !in rows ==> NameOf(pc.launch) in vault && vault[NameOf(pc.launch)] == pc.launch.creds)
  }

  predicate CallsInv(s: System) {
    forall c | c in s.calls :: CallInv(s.rows, s.vault, s.calls[c])
  }

  /** No two launches in flight share an id that has no row yet. */
  predicate Apart(rows: Rows, calls: map<nat, Pc>) {
    forall c, d | c in calls && d in calls && LaunchOf(calls[c]).Some? && Launches(calls[d], LaunchOf(calls[c]).value.id) ::
      c == d || LaunchOf(calls[c]).value.id in rows
  }

  ghost predicate Inv(s: System) {
    Supplied(s.rows, s.vault) && Owned(s) && CallsInv(s) && Apart(s.rows, s.calls)
  }
}
