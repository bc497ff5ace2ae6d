/** Planning grants: `api/planning_authorization.py` over `storage/planning_admission_store.py`.

    A call reads the store, prepares a row and hands it to the store's write transaction, which looks
    again for the command before it inserts. The two parts are separate functions here, because other
    calls can come between them.
 */
module PlanningGrants {
  import opened Sequences
  import opened TextLines

  datatype Policy = Policy(version: string, hash: string, decisions: seq<string>, ttl: int)

  datatype MissionInfo = MissionInfo(tenant: string, terminal: bool, decisionProtocol: bool, policy: Policy)

  datatype Row = Row(
    grantId: string, missionId: string, tenant: string, scope: string, planner: string, revision: int, active: bool,
    decisions: seq<string>, policyHash: string, notBefore: int, expires: int, issuer: string, commandId: string,
    receiptHash: string, grantHash: string, commandHash: string, reason: string, approvalSource: string,
    onBehalfOf: string)

  datatype Binding = Binding(
    missionId: string, tenant: string, scope: string, planner: string, grantId: string, revision: int,
    grantHash: string, policyHash: string)

  /** The grant rows in the order of their insertion, and the tables beside them. */
  datatype Store = Store(
    rows: seq<Row>, bindings: map<string, Binding>, missions: map<string, MissionInfo>,
    requests: map<string, string>)

  datatype Caller = Caller(tenant: string, principal: string)

  datatype Op = Renew | Revoke

  datatype Command =
    | Issue(mission: string, commandId: string, request: Option<string>, scope: string, planner: string,
            approval: string)
    | Change(grantId: string, expected: int, commandId: string, op: Op, detail: string)

  datatype Refusal =
    | BadApprovalSource | ReasonMissing | MissionUnavailable | MissionTerminal | RequestUnavailable
    | ProtocolMissing | GrantUnavailable | CommandReused | OtherLineage | StaleRevision | RevokedRenewal
    | InsertConflict | RequestAlreadyBound

  /** Everything that is hashed, as a value. */
  datatype Body =
    | IssueBody(mission: string, tenant: string, request: Option<string>, scope: string, planner: string,
                version: string, policyHash: string, decisions: seq<string>)
    | ChangeBody(op: string, grantId: string, expected: int, active: bool, reason: string, mission: string)
    | GrantIdBody(mission: string, planner: string, scope: string, commandId: string)
    | IssuedGrantBody(issue: Body, grantId: string, revision: int, notBefore: int, expires: int)
    | ChangedGrantBody(grantId: string, revision: int, active: bool, policyHash: string, expires: int)
    | ReceiptBody(commandHash: string, grantId: string, revision: int, grantHash: string)

  type Digest = Body -> string

  // ----------------------------------------------------------------------------- reading the store

  /** `get_grant`: the highest revision. */
  function Latest(rows: seq<Row>, grantId: string): (r: Option<Row>)
    ensures r.Some? ==> r.value in rows && r.value.grantId == grantId
  {
    if rows == [] then None
    else
      var (rest, last) := (Latest(rows[..|rows| - 1], grantId), rows[|rows| - 1]);
      if last.grantId == grantId && (rest.None? || rest.value.revision < last.revision) then Some(last) else rest
  }

  /** `get_grant_by_command` */
  function ByCommand(rows: seq<Row>, commandId: string): (r: Option<Row>)
    ensures r.Some? ==> r.value in rows && r.value.commandId == commandId
    ensures r.None? ==> forall row :: row in rows ==> row.commandId != commandId
  {
    if rows == [] then None
    else if rows[0].commandId == commandId then Some(rows[0])
    else
      assert forall row :: row in rows ==> row == rows[0] || row in rows[1..];
      ByCommand(rows[1..], commandId)
  }

  /** `_mission` */
  function MissionFor(st: Store, caller: Caller, mission: string): Result<MissionInfo, Refusal> {
    if mission !in st.missions || st.missions[mission].tenant != caller.tenant then Failure(MissionUnavailable)
    else if st.missions[mission].terminal then Failure(MissionTerminal)
    else Success(st.missions[mission])
  }

  predicate RequestFits(st: Store, request: Option<string>, mission: string) {
    request.Some? ==> request.value in st.requests && st.requests[request.value] == mission
  }

  /** `_require_issuer` */
  predicate IssuedBy(row: Row, caller: Caller) { row.tenant == caller.tenant && row.issuer == caller.principal }

  // ------------------------------------------------------------------------------ preparing a row

  datatype Prepared =
    | Refused(why: Refusal)
    | Answer(row: Row)
    | Write(row: Row, request: Option<string>, binding: Option<Binding>)

  function PlannerOf(caller: Caller, cmd: Command): string
    requires cmd.Issue?
  {
    if cmd.planner == "" then caller.principal else cmd.planner
  }

  /** What an issue command hashes; the approval source is no part of it. */
  function IssueContent(caller: Caller, cmd: Command, policy: Policy): Body
    requires cmd.Issue?
  {
    IssueBody(cmd.mission, caller.tenant, cmd.request, cmd.scope, PlannerOf(caller, cmd), policy.version, policy.hash,
              policy.decisions)
  }

  function OpName(op: Op): string { if op.Renew? then "renew" else "revoke" }

  /** `detail_reason if detail_reason else reason` */
  function ReasonOf(cmd: Command): string
    requires cmd.Change?
  {
    if cmd.detail == "" then OpName(cmd.op) else cmd.detail
  }

  /** What a change hashes, with the mission of the grant as it stands. */
  function ChangeContent(cmd: Command, mission: string): Body
    requires cmd.Change?
  {
    ChangeBody(OpName(cmd.op), cmd.grantId, cmd.expected, cmd.op.Renew?, ReasonOf(cmd), mission)
  }

  function Replay(row: Row, caller: Caller, hash: string): Prepared {
    if !IssuedBy(row, caller) then Refused(GrantUnavailable)
    else if row.commandHash != hash then Refused(CommandReused)
    else Answer(row)
  }

  function FirstRow(caller: Caller, cmd: Command, policy: Policy, now: int, digest: Digest): Row
    requires cmd.Issue?
  {
    var body := IssueContent(caller, cmd, policy);
    var grantId := digest(GrantIdBody(cmd.mission, PlannerOf(caller, cmd), cmd.scope, cmd.commandId));
    var grantHash := digest(IssuedGrantBody(body, grantId, 1, now, now + policy.ttl));
    Row(grantId, cmd.mission, caller.tenant, cmd.scope, PlannerOf(caller, cmd), 1, true, policy.decisions, policy.hash,
        now, now + policy.ttl, caller.principal, cmd.commandId,
        digest(ReceiptBody(digest(body), grantId, 1, grantHash)), grantHash, digest(body), "issue", cmd.approval,
        caller.principal)
  }

  function BindingOf(row: Row): Binding {
    Binding(row.missionId, row.tenant, row.scope, row.planner, row.grantId, row.revision, row.grantHash,
            row.policyHash)
  }

  function PrepareIssue(st: Store, caller: Caller, cmd: Command, now: int, digest: Digest): Prepared
    requires cmd.Issue?
  {
    if cmd.approval != "HUMAN" && cmd.approval != "HOST_AUTO_PERMISSION" then Refused(BadApprovalSource)
    else
      match MissionFor(st, caller, cmd.mission)
      case Failure(why) => Refused(why)
      case Success(mission) =>
        if !RequestFits(st, cmd.request, cmd.mission) then Refused(RequestUnavailable)
        else if !mission.decisionProtocol then Refused(ProtocolMissing)
        else
          var replay := ByCommand(st.rows, cmd.commandId);
          var row := FirstRow(caller, cmd, mission.policy, now, digest);
          if replay.Some? then Replay(replay.value, caller, row.commandHash)
          else if Latest(st.rows, row.grantId).Some? then Refused(OtherLineage)
          else Write(row, cmd.request, if cmd.request.Some? then Some(BindingOf(row)) else None)
  }

  function NextRow(current: Row, cmd: Command, policy: Policy, now: int, digest: Digest): Row
    requires cmd.Change?
  {
    var expires := if cmd.op.Renew? then now + policy.ttl else current.expires;
    var revision := current.revision + 1;
    var hash := digest(ChangeContent(cmd, current.missionId));
    var grantHash := digest(ChangedGrantBody(cmd.grantId, revision, cmd.op.Renew?, current.policyHash, expires));
    current.(revision := revision, active := cmd.op.Renew?, expires := expires, commandId := cmd.commandId,
             receiptHash := digest(ReceiptBody(hash, cmd.grantId, revision, grantHash)), grantHash := grantHash,
             commandHash := hash, reason := ReasonOf(cmd))
  }

  function PrepareChange(st: Store, caller: Caller, cmd: Command, now: int, digest: Digest): Prepared
    requires cmd.Change?
  {
    if cmd.op.Revoke? && Blank(cmd.detail) then Refused(ReasonMissing)
    else
      var current := Latest(st.rows, cmd.grantId);
      var mission := if current.Some? then current.value.missionId else "";
      var replay := ByCommand(st.rows, cmd.commandId);
      if replay.Some? then Replay(replay.value, caller, digest(ChangeContent(cmd, mission)))
      else if current.None? || !IssuedBy(current.value, caller) then Refused(GrantUnavailable)
      else if current.value.revision != cmd.expected then Refused(StaleRevision)
      else
        match MissionFor(st, caller, mission)
        case Failure(why) => Refused(why)
        case Success(info) =>
          if cmd.op.Renew? && !current.value.active then Refused(RevokedRenewal)
          else Write(NextRow(current.value, cmd, info.policy, now, digest), None, None)
  }

  function Prepare(st: Store, caller: Caller, cmd: Command, now: int, digest: Digest): Prepared {
    if cmd.Issue? then PrepareIssue(st, caller, cmd, now, digest) else PrepareChange(st, caller, cmd, now, digest)
  }

  // ------------------------------------------------------------------------- the write transaction

  /** The keys and checks of the grant table. */
  predicate Insertable(st: Store, row: Row) {
    && row.revision >= 1 && 0 <= row.notBefore < row.expires && row.missionId in st.missions
    && (forall r :: r in st.rows ==> r.grantId != row.grantId || r.revision != row.revision)
    && (forall r :: r in st.rows ==> r.commandId != row.commandId)
  }

  /** `put_grant`: all or nothing. */
  function Put(st: Store, row: Row, request: Option<string>, binding: Option<Binding>): (Store, Result<Row, Refusal>) {
    var existing := ByCommand(st.rows, row.commandId);
    if request.Some? && (!RequestFits(st, request, row.missionId)
                         || row.missionId !in st.missions || st.missions[row.missionId].tenant != row.tenant)
    then (st, Failure(RequestUnavailable))
    else if existing.Some? then
      var was := existing.value;
      if was.commandHash != row.commandHash then (st, Failure(CommandReused))
      else if was.tenant != row.tenant || was.issuer != row.issuer || was.missionId != row.missionId
      then (st, Failure(GrantUnavailable))
      else (st, Success(was))
    else if !Insertable(st, row) then (st, Failure(InsertConflict))
    else if request.Some? && binding.None? then (st, Failure(RequestUnavailable))
    else if request.Some? && request.value in st.bindings then (st, Failure(RequestAlreadyBound))
    else
      (st.(rows := st.rows + [row],
           bindings := if request.Some? then st.bindings[request.value := binding.value] else st.bindings),
       Success(row))
  }

  /** A call with nothing in between. */
  function Call(st: Store, caller: Caller, cmd: Command, now: int, digest: Digest): (Store, Result<Row, Refusal>) {
    match Prepare(st, caller, cmd, now, digest)
    case Refused(why) => (st, Failure(why))
    case Answer(row) => (st, Success(row))
    case Write(row, request, binding) => Put(st, row, request, binding)
  }

  // -------------------------------------------------------------------------------- the API object

  /** The caller is fixed at construction; the policy is that of the mission looked at last. */
  class PlanningAuthorizationApi {
    const caller: Caller
    const digest: Digest
    var store: Store
    var policy: Policy

    constructor (store: Store, caller: Caller, digest: Digest, policy: Policy)
      ensures this.store == store && this.caller == caller && this.digest == digest && this.policy == policy
    {
      this.store, this.caller, this.digest, this.policy := store, caller, digest, policy;
    }

    method CheckMission(mission: string) returns (r: Result<MissionInfo, Refusal>)
      modifies this`policy
      ensures r == MissionFor(store, caller, mission)
      ensures r.Success? <==>
        && mission in store.missions && store.missions[mission].tenant == caller.tenant
        && !store.missions[mission].terminal
      ensures r.Success? ==> r.value == store.missions[mission]
      ensures r == Failure(MissionTerminal) <==>
        && mission in store.missions && store.missions[mission].tenant == caller.tenant
        && store.missions[mission].terminal
      ensures r.Failure? ==> r.error in {MissionUnavailable, MissionTerminal}
      ensures policy == if r.Success? then r.value.policy else old(policy)
    {
      if mission !in store.missions || store.missions[mission].tenant != caller.tenant {
        return Failure(MissionUnavailable);
      }
      if store.missions[mission].terminal {
        return Failure(MissionTerminal);
      }
      policy := store.missions[mission].policy;
      return Success(store.missions[mission]);
    }

    method PutGrant(row: Row, request: Option<string>, binding: Option<Binding>) returns (r: Result<Row, Refusal>)
      modifies this`store
      ensures (store, r) == Put(old(store), row, request, binding)
    {
      if request.Some? {
        if !RequestFits(store, request, row.missionId) || row.missionId !in store.missions
           || store.missions[row.missionId].tenant != row.tenant {
          return Failure(RequestUnavailable);
        }
      }
      var existing := ByCommand(store.rows, row.commandId);
      if existing.Some? {
        var was := existing.value;
        if was.commandHash == row.commandHash {
          if was.tenant != row.tenant || was.issuer != row.issuer || was.missionId != row.missionId {
            return Failure(GrantUnavailable);
          }
          return Success(was);
        }
        return Failure(CommandReused);
      }
      if !Insertable(store, row) {
        return Failure(InsertConflict);
      }
      var bindings := store.bindings;
      if request.Some? {
        if binding.None? {
          return Failure(RequestUnavailable);
        }
        if request.value in bindings {
          return Failure(RequestAlreadyBound);
        }
        bindings := bindings[request.value := binding.value];
      }
      store := store.(rows := store.rows + [row], bindings := bindings);
      return Success(row);
    }

    method IssueGrant(
      mission: string, commandId: string, request: Option<string>, scope: string, planner: string, approval: string,
      now: int) returns (r: Result<Row, Refusal>)
      modifies this
      ensures (store, r)
           == Call(old(store), caller, Issue(mission, commandId, request, scope, planner, approval), now, digest)
    {
      ghost var cmd := Issue(mission, commandId, request, scope, planner, approval);
      if approval != "HUMAN" && approval != "HOST_AUTO_PERMISSION" {
        return Failure(BadApprovalSource);
      }
      var found := CheckMission(mission);
      if found.Failure? {
        return Failure(found.error);
      }
      if !RequestFits(store, request, mission) {
        return Failure(RequestUnavailable);
      }
      if !found.value.decisionProtocol {
        return Failure(ProtocolMissing);
      }
      var who := if planner == "" then caller.principal else planner;
      var body := IssueBody(mission, caller.tenant, request, scope, who, policy.version, policy.hash, policy.decisions);
      var commandHash := digest(body);
      var replay := ByCommand(store.rows, commandId);
      if replay.Some? {
        if !IssuedBy(replay.value, caller) {
          return Failure(GrantUnavailable);
        }
        if replay.value.commandHash != commandHash {
          return Failure(CommandReused);
        }
        return Success(replay.value);
      }
      var grantId := digest(GrantIdBody(mission, who, scope, commandId));
      if Latest(store.rows, grantId).Some? {
        return Failure(OtherLineage);
      }
      var expires := now + policy.ttl;
      var grantHash := digest(IssuedGrantBody(body, grantId, 1, now, expires));
      var receiptHash := digest(ReceiptBody(commandHash, grantId, 1, grantHash));
      var row := Row(grantId, mission, caller.tenant, scope, who, 1, true, policy.decisions, policy.hash, now, expires,
                     caller.principal, commandId, receiptHash, grantHash, commandHash, "issue", approval,
                     caller.principal);
      assert row == FirstRow(caller, cmd, policy, now, digest);
      r := PutGrant(row, request, if request.Some? then Some(BindingOf(row)) else None);
    }

    method ChangeGrant(grantId: string, expected: int, commandId: string, op: Op, detail: string, now: int)
      returns (r: Result<Row, Refusal>)
      requires op.Revoke? ==> !Blank(detail)
      modifies this
      ensures (store, r) == Call(old(store), caller, Change(grantId, expected, commandId, op, detail), now, digest)
    {
      ghost var cmd := Change(grantId, expected, commandId, op, detail);
      var current := Latest(store.rows, grantId);
      var reason := if detail == "" then OpName(op) else detail;
      var mission := if current.Some? then current.value.missionId else "";
      var commandHash := digest(ChangeBody(OpName(op), grantId, expected, op.Renew?, reason, mission));
      var replay := ByCommand(store.rows, commandId);
      if replay.Some? {
        if !IssuedBy(replay.value, caller) {
          return Failure(GrantUnavailable);
        }
        if replay.value.commandHash != commandHash {
          return Failure(CommandReused);
        }
        return Success(replay.value);
      }
      if current.None? || !IssuedBy(current.value, caller) {
        return Failure(GrantUnavailable);
      }
      if current.value.revision != expected {
        return Failure(StaleRevision);
      }
      var found := CheckMission(mission);
      if found.Failure? {
        return Failure(found.error);
      }
      if op.Renew? && !current.value.active {
        return Failure(RevokedRenewal);
      }
      var expires := if op.Renew? then now + policy.ttl else current.value.expires;
      var revision := current.value.revision + 1;
      var grantHash := digest(ChangedGrantBody(grantId, revision, op.Renew?, current.value.policyHash, expires));
      var receiptHash := digest(ReceiptBody(commandHash, grantId, revision, grantHash));
      var row := current.value.(revision := revision, active := op.Renew?, expires := expires, commandId := commandId,
                                receiptHash := receiptHash, grantHash := grantHash, commandHash := commandHash,
                                reason := reason);
      assert row == NextRow(current.value, cmd, policy, now, digest);
      r := PutGrant(row, None, None);
    }

    method RenewGrant(grantId: string, expected: int, commandId: string, now: int) returns (r: Result<Row, Refusal>)
      modifies this
      ensures (store, r) == Call(old(store), caller, Change(grantId, expected, commandId, Renew, ""), now, digest)
    {
      r := ChangeGrant(grantId, expected, commandId, Renew, "", now);
    }

    method RevokeGrant(grantId: string, expected: int, commandId: string, reason: string, now: int)
      returns (r: Result<Row, Refusal>)
      modifies this
      ensures (store, r) == Call(old(store), caller, Change(grantId, expected, commandId, Revoke, reason), now, digest)
    {
      if Blank(reason) {
        return Failure(ReasonMissing);
      }
      r := ChangeGrant(grantId, expected, commandId, Revoke, reason, now);
    }
  }
}
