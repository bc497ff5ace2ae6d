/** What holds over every run of grant commands, however their parts interleave.

    A run is a sequence of steps: a command is begun (it reads the store and answers, is refused, or
    leaves a row waiting), a waiting row reaches the write transaction, or the missions and requests
    change in any way at all.
 */
module GrantLineage {
  import opened Sequences
  import opened PlanningGrants

  /** A row on its way to the store, and the command and policy it was prepared for. */
  datatype Flight = Flight(
    caller: Caller, cmd: Command, policy: Option<Policy>, row: Row, request: Option<string>, binding: Option<Binding>)

  /** A command that was answered with a grant. */
  datatype Answered = Answered(caller: Caller, cmd: Command, policy: Option<Policy>, row: Row)

  datatype System = System(store: Store, flights: seq<Flight>, answers: seq<Answered>)

  datatype Step =
    | Begin(caller: Caller, cmd: Command, now: int)
    | Finish(k: nat)
    | World(missions: map<string, MissionInfo>, requests: map<string, string>)

  function SeenPolicy(st: Store, cmd: Command): Option<Policy> {
    if cmd.Issue? && cmd.mission in st.missions then Some(st.missions[cmd.mission].policy) else None
  }

  function Next(s: System, step: Step, digest: Digest): System {
    match step
    case Begin(caller, cmd, now) =>
      var policy := SeenPolicy(s.store, cmd);
      (match Prepare(s.store, caller, cmd, now, digest)
       case Refused(_) => s
       case Answer(row) => s.(answers := s.answers + [Answered(caller, cmd, policy, row)])
       case Write(row, request, binding) =>
         s.(flights := s.flights + [Flight(caller, cmd, policy, row, request, binding)]))
    case Finish(k) =>
      if k >= |s.flights| then s
      else
        var f := s.flights[k];
        var (store, r) := Put(s.store, f.row, f.request, f.binding);
        System(store, Without(s.flights, k),
               if r.Success? then s.answers + [Answered(f.caller, f.cmd, f.policy, r.value)] else s.answers)
    case World(missions, requests) => s.(store := s.store.(missions := missions, requests := requests))
  }

  function Run(s: System, steps: seq<Step>, digest: Digest): System {
    if steps == [] then s else Next(Run(s, steps[..|steps| - 1], digest), steps[|steps| - 1], digest)
  }

  const START := System(Store([], map[], map[], map[]), [], [])

  ghost predicate Injective(digest: Digest) { forall a, b :: digest(a) == digest(b) ==> a == b }

  // ------------------------------------------------------------------------------- the invariant

  /** What never changes along a grant. */
  predicate SameLine(a: Row, b: Row) {
    && a.grantId == b.grantId && a.missionId == b.missionId && a.tenant == b.tenant && a.scope == b.scope
    && a.planner == b.planner && a.policyHash == b.policyHash && a.decisions == b.decisions
    && a.notBefore == b.notBefore && a.issuer == b.issuer
  }

  predicate Follows(previous: Row, row: Row) {
    SameLine(previous, row) && row.revision == previous.revision + 1 && (row.active ==> previous.active)
  }

  /** Every row opens a grant or follows its latest revision, under a command of its own. */
  ghost predicate LogOk(rows: seq<Row>) {
    rows != [] ==>
      var (earlier, row) := (rows[..|rows| - 1], rows[|rows| - 1]);
      var latest := Latest(earlier, row.grantId);
      && LogOk(earlier)
      && (if latest.None? then row.revision == 1 else Follows(latest.value, row))
      && ByCommand(earlier, row.commandId).None?
  }

  /** The content of a command that makes the row. */
  predicate Makes(body: Body, row: Row) {
    match body
    case IssueBody(mission, tenant, _, scope, planner, _, _, _) =>
      && row.revision == 1 && row.missionId == mission && row.tenant == tenant && row.scope == scope
      && row.planner == planner
    case ChangeBody(_, grantId, expected, active, reason, mission) =>
      && row.revision == expected + 1 && row.grantId == grantId && row.missionId == mission
      && row.active == active && row.reason == reason
    case _ => false
  }

  /** The row carries the hash of a command that makes it. */
  ghost predicate Signed(row: Row, digest: Digest) {
    exists body :: Makes(body, row) && row.commandHash == digest(body)
  }

  /** The row a command asks for. */
  ghost predicate Asked(caller: Caller, cmd: Command, policy: Option<Policy>, row: Row, digest: Digest) {
    && IssuedBy(row, caller) && row.commandId == cmd.commandId
    && match cmd
       case Issue(_, _, _, _, _, _) =>
         policy.Some? && row.missionId == cmd.mission
         && row.commandHash == digest(IssueContent(caller, cmd, policy.value))
       case Change(_, _, _, _, _) =>
         row.commandHash == digest(ChangeContent(cmd, row.missionId)) && row.grantId == cmd.grantId
         && row.revision == cmd.expected + 1
  }

  /** A waiting row was prepared from a row of the log, or opens a grant. */
  ghost predicate Grounded(row: Row, rows: seq<Row>) {
    row.revision == 1 || exists previous :: previous in rows && Follows(previous, row)
  }

  /** A revocation has a reason. */
  predicate Reasoned(cmd: Command) { cmd.Change? && cmd.op.Revoke? ==> !TextLines.Blank(cmd.detail) }

  ghost predicate FlightOk(f: Flight, rows: seq<Row>, digest: Digest) {
    Grounded(f.row, rows) && Signed(f.row, digest) && Asked(f.caller, f.cmd, f.policy, f.row, digest)
    && Reasoned(f.cmd)
    && (f.binding.Some? ==> f.binding.value == BindingOf(f.row))
  }

  ghost predicate AnswerOk(a: Answered, rows: seq<Row>, digest: Digest) {
    a.row in rows && Asked(a.caller, a.cmd, a.policy, a.row, digest) && Reasoned(a.cmd)
  }

  ghost predicate Bound(bindings: map<string, Binding>, rows: seq<Row>) {
    forall q :: q in bindings ==> exists row :: row in rows && bindings[q] == BindingOf(row)
  }

  ghost predicate AllSigned(rows: seq<Row>, digest: Digest) { forall row :: row in rows ==> Signed(row, digest) }

  ghost predicate Inv(s: System, digest: Digest) {
    && LogOk(s.store.rows)
    && AllSigned(s.store.rows, digest)
    && (forall f :: f in s.flights ==> FlightOk(f, s.store.rows, digest))
    && (forall a :: a in s.answers ==> AnswerOk(a, s.store.rows, digest))
    && Bound(s.store.bindings, s.store.rows)
  }

  // ------------------------------------------------------------------- what the log's shape means

  lemma TakeConcat<T>(a: seq<T>, x: T)
    ensures (a + [x])[..|a|] == a && (a + [x])[|a|] == x
    ensures forall y :: y in a + [x] <==> y in a || y == x
  {
  }

  lemma LastSplit<T>(s: seq<T>)
    requires s != []
    ensures forall y :: y in s <==> y in s[..|s| - 1] || y == s[|s| - 1]
  {
    assert s == s[..|s| - 1] + [s[|s| - 1]];
  }

  /** Revisions of a grant run from 1 to the latest, and belong to one line. */
  lemma {:induction false} LatestTop(rows: seq<Row>, row: Row)
    requires LogOk(rows) && row in rows
    ensures var latest := Latest(rows, row.grantId);
      latest.Some? && 1 <= row.revision <= latest.value.revision && SameLine(row, latest.value)
    decreases |rows|
  {
    LastSplit(rows);
    var (earlier, last) := (rows[..|rows| - 1], rows[|rows| - 1]);
    if row in earlier {
      LatestTop(earlier, row);
    } else if Latest(earlier, last.grantId).Some? {
      LatestTop(earlier, Latest(earlier, last.grantId).value);
    }
  }

  lemma {:induction false} NoneBeyond(rows: seq<Row>, grantId: string)
    requires Latest(rows, grantId).None?
    ensures forall row :: row in rows ==> row.grantId != grantId
    decreases |rows|
  {
    if rows != [] {
      LastSplit(rows);
      NoneBeyond(rows[..|rows| - 1], grantId);
    }
  }

  /** The revision below one in the log is in the log too. */
  lemma {:induction false} Previous(rows: seq<Row>, row: Row) returns (previous: Row)
    requires LogOk(rows) && row in rows && row.revision > 1
    ensures previous in rows && Follows(previous, row)
    decreases |rows|
  {
    LastSplit(rows);
    var (earlier, last) := (rows[..|rows| - 1], rows[|rows| - 1]);
    if row in earlier {
      previous := Previous(earlier, row);
    } else {
      previous := Latest(earlier, last.grantId).value;
    }
  }

  lemma {:induction false} RevisionPresent(rows: seq<Row>, row: Row, r: int) returns (found: Row)
    requires LogOk(rows) && row in rows && 1 <= r <= row.revision
    ensures found in rows && found.grantId == row.grantId && found.revision == r
    decreases row.revision
  {
    LatestTop(rows, row);
    if r == row.revision {
      found := row;
    } else {
      var previous := Previous(rows, row);
      found := RevisionPresent(rows, previous, r);
    }
  }

  lemma {:induction false} RevisionOnce(rows: seq<Row>, a: Row, b: Row)
    requires LogOk(rows) && a in rows && b in rows && a.grantId == b.grantId && a.revision == b.revision
    ensures a == b
    decreases |rows|
  {
    LastSplit(rows);
    var (earlier, last) := (rows[..|rows| - 1], rows[|rows| - 1]);
    if a in earlier && b in earlier {
      RevisionOnce(earlier, a, b);
    } else if a in earlier {
      LatestTop(earlier, a);
    } else if b in earlier {
      LatestTop(earlier, b);
    }
  }

  lemma {:induction false} CommandOnce(rows: seq<Row>, row: Row)
    requires LogOk(rows) && row in rows
    ensures ByCommand(rows, row.commandId) == Some(row)
    decreases |rows|
  {
    LastSplit(rows);
    var (earlier, last) := (rows[..|rows| - 1], rows[|rows| - 1]);
    assert rows == earlier + [last];
    ByCommandConcat(earlier, [last], row.commandId);
    if row in earlier {
      CommandOnce(earlier, row);
    } else {
      assert ByCommand([last], last.commandId) == Some(last);
    }
  }

  lemma {:induction false} ByCommandConcat(a: seq<Row>, b: seq<Row>, commandId: string)
    ensures ByCommand(a + b, commandId) == if ByCommand(a, commandId).Some? then ByCommand(a, commandId)
                                           else ByCommand(b, commandId)
  {
    if a == [] {
      assert a + b == b;
    } else {
      assert (a + b)[1..] == a[1..] + b;
      ByCommandConcat(a[1..], b, commandId);
    }
  }

  // --------------------------------------------------------------------------- every step keeps it

  /** A grounded row that the store takes continues the log. */
  lemma InsertKeeps(st: Store, row: Row)
    requires LogOk(st.rows) && Grounded(row, st.rows) && Insertable(st, row)
    ensures LogOk(st.rows + [row])
  {
    TakeConcat(st.rows, row);
    var latest := Latest(st.rows, row.grantId);
    if row.revision == 1 {
      if latest.Some? {
        LatestTop(st.rows, latest.value);
        var first := RevisionPresent(st.rows, latest.value, 1);
      }
    } else {
      var previous :| previous in st.rows && Follows(previous, row);
      LatestTop(st.rows, previous);
      if latest.value.revision > previous.revision {
        var taken := RevisionPresent(st.rows, latest.value, row.revision);
      } else {
        RevisionOnce(st.rows, previous, latest.value);
      }
    }
  }

  lemma GroundedGrows(row: Row, rows: seq<Row>, more: Row)
    requires Grounded(row, rows)
    ensures Grounded(row, rows + [more])
  {
    TakeConcat(rows, more);
    if row.revision != 1 {
      var previous :| previous in rows && Follows(previous, row);
      assert previous in rows + [more];
    }
  }

  lemma BoundGrows(bindings: map<string, Binding>, rows: seq<Row>, more: Row)
    requires Bound(bindings, rows)
    ensures Bound(bindings, rows + [more])
  {
    TakeConcat(rows, more);
    forall q | q in bindings ensures exists row :: row in rows + [more] && bindings[q] == BindingOf(row) {
      var row :| row in rows && bindings[q] == BindingOf(row);
      assert row in rows + [more];
    }
  }

  lemma FirstRowOk(rows: seq<Row>, caller: Caller, cmd: Command, policy: Policy, now: int, digest: Digest)
    requires cmd.Issue?
    ensures var row := FirstRow(caller, cmd, policy, now, digest);
      Grounded(row, rows) && Signed(row, digest) && Asked(caller, cmd, Some(policy), row, digest)
  {
    assert Makes(IssueContent(caller, cmd, policy), FirstRow(caller, cmd, policy, now, digest));
  }

  lemma NextRowOk(rows: seq<Row>, current: Row, caller: Caller, cmd: Command, policy: Policy, now: int, digest: Digest)
    requires cmd.Change? && current in rows && current.grantId == cmd.grantId && current.revision == cmd.expected
    requires IssuedBy(current, caller) && (cmd.op.Renew? ==> current.active)
    ensures var row := NextRow(current, cmd, policy, now, digest);
      Grounded(row, rows) && Signed(row, digest) && Asked(caller, cmd, None, row, digest)
  {
    var row := NextRow(current, cmd, policy, now, digest);
    assert Follows(current, row);
    assert Makes(ChangeContent(cmd, current.missionId), row);
  }

  /** A hash that a row carries is that of the command that makes it. */
  lemma HashFound(row: Row, body: Body, digest: Digest)
    requires Injective(digest) && Signed(row, digest) && row.commandHash == digest(body)
    ensures Makes(body, row)
  {
    var made :| Makes(made, row) && row.commandHash == digest(made);
    assert made == body;
  }

  lemma WriteIssueAsked(st: Store, caller: Caller, cmd: Command, now: int, digest: Digest, p: Prepared)
    requires cmd.Issue? && p == PrepareIssue(st, caller, cmd, now, digest) && p.Write?
    ensures FlightOk(Flight(caller, cmd, SeenPolicy(st, cmd), p.row, p.request, p.binding), st.rows, digest)
  {
    FirstRowOk(st.rows, caller, cmd, st.missions[cmd.mission].policy, now, digest);
  }

  lemma WriteChangeAsked(st: Store, caller: Caller, cmd: Command, now: int, digest: Digest, p: Prepared)
    requires cmd.Change? && p == PrepareChange(st, caller, cmd, now, digest) && p.Write?
    ensures FlightOk(Flight(caller, cmd, SeenPolicy(st, cmd), p.row, p.request, p.binding), st.rows, digest)
  {
    var current := Latest(st.rows, cmd.grantId).value;
    NextRowOk(st.rows, current, caller, cmd, st.missions[current.missionId].policy, now, digest);
  }

  lemma ReplayIssueAsked(st: Store, caller: Caller, cmd: Command, now: int, digest: Digest, p: Prepared)
    requires Injective(digest) && AllSigned(st.rows, digest)
    requires cmd.Issue? && p == PrepareIssue(st, caller, cmd, now, digest) && p.Answer?
    ensures AnswerOk(Answered(caller, cmd, SeenPolicy(st, cmd), p.row), st.rows, digest)
  {
    HashFound(p.row, IssueContent(caller, cmd, st.missions[cmd.mission].policy), digest);
  }

  lemma ReplayChangeAsked(st: Store, caller: Caller, cmd: Command, now: int, digest: Digest, p: Prepared)
    requires Injective(digest) && AllSigned(st.rows, digest)
    requires cmd.Change? && p == PrepareChange(st, caller, cmd, now, digest) && p.Answer?
    ensures AnswerOk(Answered(caller, cmd, SeenPolicy(st, cmd), p.row), st.rows, digest)
  {
    var current := Latest(st.rows, cmd.grantId);
    HashFound(p.row, ChangeContent(cmd, if current.Some? then current.value.missionId else ""), digest);
  }

  /** A command begun: another flight, another answer, or nothing. */
  lemma FlightKeeps(s: System, f: Flight, digest: Digest)
    requires Inv(s, digest) && FlightOk(f, s.store.rows, digest)
    ensures Inv(s.(flights := s.flights + [f]), digest)
  {
    TakeConcat(s.flights, f);
  }

  lemma AnswerKeeps(s: System, a: Answered, digest: Digest)
    requires Inv(s, digest) && AnswerOk(a, s.store.rows, digest)
    ensures Inv(s.(answers := s.answers + [a]), digest)
  {
    TakeConcat(s.answers, a);
  }

  lemma BeginKeeps(s: System, caller: Caller, cmd: Command, now: int, digest: Digest)
    requires Injective(digest) && Inv(s, digest)
    ensures Inv(Next(s, Begin(caller, cmd, now), digest), digest)
  {
    var (st, p) := (s.store, Prepare(s.store, caller, cmd, now, digest));
    if p.Answer? {
      if cmd.Issue? {
        ReplayIssueAsked(st, caller, cmd, now, digest, p);
      } else {
        ReplayChangeAsked(st, caller, cmd, now, digest, p);
      }
      AnswerKeeps(s, Answered(caller, cmd, SeenPolicy(st, cmd), p.row), digest);
    } else if p.Write? {
      if cmd.Issue? {
        WriteIssueAsked(st, caller, cmd, now, digest, p);
      } else {
        WriteChangeAsked(st, caller, cmd, now, digest, p);
      }
      FlightKeeps(s, Flight(caller, cmd, SeenPolicy(st, cmd), p.row, p.request, p.binding), digest);
    }
  }

  /** What the write transaction can do with a row. */
  ghost predicate Replayed(st: Store, row: Row, st': Store, r: Result<Row, Refusal>) {
    && st' == st && r.Success? && r.value in st.rows
    && r.value.commandId == row.commandId && r.value.commandHash == row.commandHash
    && r.value.tenant == row.tenant && r.value.issuer == row.issuer && r.value.missionId == row.missionId
  }

  ghost predicate Inserted(st: Store, f: Flight, st': Store, r: Result<Row, Refusal>) {
    && Insertable(st, f.row) && r == Success(f.row) && st'.rows == st.rows + [f.row]
    && (st'.bindings == st.bindings
        || (f.request.Some? && f.binding.Some? && st'.bindings == st.bindings[f.request.value := f.binding.value]))
  }

  lemma PutOutcome(st: Store, f: Flight, st': Store, r: Result<Row, Refusal>)
    requires (st', r) == Put(st, f.row, f.request, f.binding)
    ensures (st' == st && r.Failure?) || Replayed(st, f.row, st', r) || Inserted(st, f, st', r)
  {
  }

  lemma ReplayedAsked(rows: seq<Row>, f: Flight, row: Row, digest: Digest)
    requires Injective(digest) && Signed(row, digest) && Asked(f.caller, f.cmd, f.policy, f.row, digest)
    requires row.commandId == f.row.commandId && row.commandHash == f.row.commandHash
    requires row.tenant == f.row.tenant && row.issuer == f.row.issuer && row.missionId == f.row.missionId
    ensures Asked(f.caller, f.cmd, f.policy, row, digest)
  {
    if f.cmd.Change? {
      HashFound(row, ChangeContent(f.cmd, f.row.missionId), digest);
    }
  }

  lemma InsertedBinds(st: Store, f: Flight, st': Store, r: Result<Row, Refusal>)
    requires Bound(st.bindings, st.rows) && Inserted(st, f, st', r)
    requires f.binding.Some? ==> f.binding.value == BindingOf(f.row)
    ensures Bound(st'.bindings, st'.rows)
  {
    TakeConcat(st.rows, f.row);
    BoundGrows(st.bindings, st.rows, f.row);
    assert f.row in st'.rows;
    forall q | q in st'.bindings ensures exists row :: row in st'.rows && st'.bindings[q] == BindingOf(row) {
      if f.request.Some? && q == f.request.value && st'.bindings != st.bindings {
        assert st'.bindings[q] == BindingOf(f.row);
      } else {
        assert q in st.bindings;
      }
    }
  }

  lemma FlightsGrow(flights: seq<Flight>, rows: seq<Row>, more: Row, digest: Digest)
    requires forall g :: g in flights ==> FlightOk(g, rows, digest)
    ensures forall g :: g in flights ==> FlightOk(g, rows + [more], digest)
  {
    forall g | g in flights ensures FlightOk(g, rows + [more], digest) {
      GroundedGrows(g.row, rows, more);
    }
  }

  lemma InsertedKeeps(s: System, f: Flight, st': Store, r: Result<Row, Refusal>, digest: Digest)
    requires Inv(s, digest) && FlightOk(f, s.store.rows, digest) && Inserted(s.store, f, st', r)
    ensures Inv(System(st', s.flights, s.answers), digest) && f.row in st'.rows
  {
    InsertKeeps(s.store, f.row);
    TakeConcat(s.store.rows, f.row);
    InsertedBinds(s.store, f, st', r);
    FlightsGrow(s.flights, s.store.rows, f.row, digest);
    assert f.row in st'.rows;
  }

  lemma LandedKeeps(s: System, k: nat, digest: Digest)
    requires Inv(s, digest) && k < |s.flights|
    ensures Inv(s.(flights := Without(s.flights, k)), digest)
  {
    assert forall g :: g in Without(s.flights, k) ==> g in s.flights;
  }

  lemma FinishKeeps(s: System, k: nat, digest: Digest)
    requires Injective(digest) && Inv(s, digest) && k < |s.flights|
    ensures Inv(Next(s, Finish(k), digest), digest)
  {
    var f := s.flights[k];
    var (st', r) := Put(s.store, f.row, f.request, f.binding);
    assert FlightOk(f, s.store.rows, digest);
    PutOutcome(s.store, f, st', r);
    LandedKeeps(s, k, digest);
    var landed := s.(flights := Without(s.flights, k));
    if Inserted(s.store, f, st', r) {
      InsertedKeeps(landed, f, st', r, digest);
      AnswerKeeps(System(st', landed.flights, s.answers), Answered(f.caller, f.cmd, f.policy, r.value), digest);
    } else if r.Success? {
      ReplayedAsked(s.store.rows, f, r.value, digest);
      AnswerKeeps(landed, Answered(f.caller, f.cmd, f.policy, r.value), digest);
    }
  }

  lemma NextKeeps(s: System, step: Step, digest: Digest)
    requires Injective(digest) && Inv(s, digest)
    ensures Inv(Next(s, step, digest), digest)
  {
    match step
    case Begin(caller, cmd, now) => BeginKeeps(s, caller, cmd, now, digest);
    case Finish(k) => if k < |s.flights| { FinishKeeps(s, k, digest); }
    case World(_, _) =>
  }

  lemma {:induction false} RunKeeps(s: System, steps: seq<Step>, digest: Digest)
    requires Injective(digest) && Inv(s, digest)
    ensures Inv(Run(s, steps, digest), digest)
  {
    if steps != [] {
      RunKeeps(s, steps[..|steps| - 1], digest);
      NextKeeps(Run(s, steps[..|steps| - 1], digest), steps[|steps| - 1], digest);
    }
  }

  // ------------------------------------------------------------------------------- the main results

  function Revisions(rows: seq<Row>, grantId: string): seq<Row> {
    Filter(rows, (row: Row) => row.grantId == grantId)
  }

  lemma RevisionsLast(rows: seq<Row>, grantId: string)
    requires rows != []
    ensures var (earlier, last) := (rows[..|rows| - 1], rows[|rows| - 1]);
      Revisions(rows, grantId) ==
        if last.grantId == grantId then Revisions(earlier, grantId) + [last] else Revisions(earlier, grantId)
  {
    var (earlier, last) := (rows[..|rows| - 1], rows[|rows| - 1]);
    assert rows == earlier + [last];
    FilterConcat(earlier, [last], (row: Row) => row.grantId == grantId);
    assert [last][1..] == [];
  }

  /** One after the other, from revision 1, in one line that is never revived. */
  ghost predicate OneLine(line: seq<Row>) {
    && (line != [] ==> line[0].revision == 1)
    && forall k :: 0 < k < |line| ==> Follows(line[k - 1], line[k])
  }

  lemma LineGrows(line: seq<Row>, row: Row)
    requires OneLine(line) && if line == [] then row.revision == 1 else Follows(line[|line| - 1], row)
    ensures OneLine(line + [row]) && (line + [row])[|line|] == row
  {
  }

  ghost predicate EndsIn(line: seq<Row>, latest: Option<Row>) {
    latest == if line == [] then None else Some(line[|line| - 1])
  }

  lemma LineStep(rows: seq<Row>, grantId: string, line: seq<Row>)
    requires rows != [] && LogOk(rows) && OneLine(line) && EndsIn(line, Latest(rows[..|rows| - 1], grantId))
    ensures var row := rows[|rows| - 1];
      var line' := if row.grantId == grantId then line + [row] else line;
      OneLine(line') && EndsIn(line', Latest(rows, grantId))
  {
    if rows[|rows| - 1].grantId == grantId {
      LineGrows(line, rows[|rows| - 1]);
    }
  }

  lemma {:induction false} LogLine(rows: seq<Row>, grantId: string)
    requires LogOk(rows)
    ensures OneLine(Revisions(rows, grantId)) && EndsIn(Revisions(rows, grantId), Latest(rows, grantId))
    decreases |rows|
  {
    if rows != [] {
      LogLine(rows[..|rows| - 1], grantId);
      RevisionsLast(rows, grantId);
      LineStep(rows, grantId, Revisions(rows[..|rows| - 1], grantId));
    }
  }

  lemma {:induction false} LineMeans(line: seq<Row>, k: nat)
    requires OneLine(line) && k < |line|
    ensures line[k].revision == k + 1 && SameLine(line[0], line[k])
    ensures forall j :: 0 <= j < k && line[k].active ==> line[j].active
  {
    if k > 0 {
      assert Follows(line[k - 1], line[k]);
      LineMeans(line, k - 1);
    }
  }

  /** Lineage. After any run the rows of a grant have the revisions 1, 2, 3, and so on; mission, tenant,
      scope, planner, policy and issuer never change; and a revoked grant is never active again. */
  lemma Lineage(steps: seq<Step>, digest: Digest, grantId: string, k: nat)
    requires Injective(digest) && k < |Revisions(Run(START, steps, digest).store.rows, grantId)|
    ensures var line := Revisions(Run(START, steps, digest).store.rows, grantId);
      && line[k].revision == k + 1 && SameLine(line[0], line[k])
      && forall j :: 0 <= j < k && !line[j].active ==> !line[k].active
  {
    RunKeeps(START, steps, digest);
    var rows := Run(START, steps, digest).store.rows;
    LogLine(rows, grantId);
    LineMeans(Revisions(rows, grantId), k);
  }

  /** The mission is there, is the caller's tenant's, and has not ended. */
  predicate Open(st: Store, caller: Caller, mission: string) {
    && mission in st.missions && st.missions[mission].tenant == caller.tenant
    && !st.missions[mission].terminal
  }

  /** What a change needs: a new command, from the issuer, for the latest revision of a grant of an open
      mission; a renewal needs an active grant, a revocation a reason. */
  ghost predicate MayChange(st: Store, caller: Caller, cmd: Command)
    requires cmd.Change?
  {
    var latest := Latest(st.rows, cmd.grantId);
    && (forall row :: row in st.rows ==> row.commandId != cmd.commandId)
    && latest.Some? && latest.value.tenant == caller.tenant && latest.value.issuer == caller.principal
    && latest.value.revision == cmd.expected && Open(st, caller, latest.value.missionId)
    && (if cmd.op.Renew? then latest.value.active else !TextLines.Blank(cmd.detail))
  }

  /** A renewal runs from now on, for the time that the mission's policy gives; a revocation moves nothing. */
  function ChangedExpiry(st: Store, cmd: Command, now: int, latest: Row): int
    requires cmd.Change?
  {
    if cmd.op.Renew? && latest.missionId in st.missions then now + st.missions[latest.missionId].policy.ttl
    else latest.expires
  }

  lemma PreparedIff(st: Store, caller: Caller, cmd: Command, now: int, digest: Digest)
    requires cmd.Change?
    ensures var p := PrepareChange(st, caller, cmd, now, digest);
      && (p.Write? <==> MayChange(st, caller, cmd))
      && (p.Write? ==>
            var latest := Latest(st.rows, cmd.grantId).value;
            p == Write(NextRow(latest, cmd, st.missions[latest.missionId].policy, now, digest), None, None))
  {
  }

  lemma PutPlain(st: Store, row: Row)
    requires ByCommand(st.rows, row.commandId).None?
    ensures Put(st, row, None, None) ==
              if Insertable(st, row) then (st.(rows := st.rows + [row]), Success(row))
              else (st, Failure(InsertConflict))
  {
  }

  /** The row after the latest is always free; only its times can be refused. */
  lemma NextInsertable(st: Store, latest: Row, row: Row)
    requires LogOk(st.rows) && Latest(st.rows, row.grantId) == Some(latest)
    requires row.revision == latest.revision + 1 && row.missionId in st.missions
    requires forall r :: r in st.rows ==> r.commandId != row.commandId
    ensures Insertable(st, row) <==> 0 <= row.notBefore < row.expires
  {
    LatestTop(st.rows, latest);
    forall r | r in st.rows && r.grantId == row.grantId ensures r.revision != row.revision {
      LatestTop(st.rows, r);
    }
  }

  /** A change that may be made, at a time at which it ends after it begins, writes one row that follows the
      latest: active after a renewal, inactive after a revocation. Any other change writes nothing. */
  lemma ChangeTakesEffect(st: Store, caller: Caller, cmd: Command, now: int, digest: Digest)
    requires LogOk(st.rows) && cmd.Change?
    ensures var (st', r) := Call(st, caller, cmd, now, digest);
      if !MayChange(st, caller, cmd) then st' == st
      else
        var latest := Latest(st.rows, cmd.grantId).value;
        var expires := ChangedExpiry(st, cmd, now, latest);
        if !(0 <= latest.notBefore < expires) then st' == st && r == Failure(InsertConflict)
        else
          && r.Success? && st' == st.(rows := st.rows + [r.value]) && Follows(latest, r.value)
          && r.value.commandId == cmd.commandId && (r.value.active <==> cmd.op.Renew?)
          && r.value.expires == expires
          && r.value.reason == if cmd.detail != "" then cmd.detail else if cmd.op.Renew? then "renew" else "revoke"
  {
    PreparedIff(st, caller, cmd, now, digest);
    if MayChange(st, caller, cmd) {
      var latest := Latest(st.rows, cmd.grantId).value;
      var row := NextRow(latest, cmd, st.missions[latest.missionId].policy, now, digest);
      NextInsertable(st, latest, row);
      PutPlain(st, row);
    }
  }

  /** The mission is open to the caller, and the request is still one of that mission. */
  predicate Admits(st: Store, caller: Caller, cmd: Command)
    requires cmd.Issue?
  {
    && (cmd.approval == "HUMAN" || cmd.approval == "HOST_AUTO_PERMISSION")
    && Open(st, caller, cmd.mission) && st.missions[cmd.mission].decisionProtocol
    && (cmd.request.Some? ==> cmd.request.value in st.requests && st.requests[cmd.request.value] == cmd.mission)
  }

  /** What an issue needs: a new command for an open mission, a grant id not in use, a request not bound yet,
      and a grant that ends after it begins. */
  ghost predicate MayIssue(st: Store, caller: Caller, cmd: Command, now: int, digest: Digest)
    requires cmd.Issue?
  {
    && Admits(st, caller, cmd)
    && (forall row :: row in st.rows ==> row.commandId != cmd.commandId)
    && Latest(st.rows, digest(GrantIdBody(cmd.mission, PlannerOf(caller, cmd), cmd.scope, cmd.commandId))).None?
    && 0 <= now && 0 < st.missions[cmd.mission].policy.ttl
    && (cmd.request.Some? ==> cmd.request.value !in st.bindings)
  }

  /** A binding and a row agree on all that a binding records. */
  predicate Names(binding: Binding, row: Row) {
    && binding.missionId == row.missionId && binding.tenant == row.tenant && binding.scope == row.scope
    && binding.planner == row.planner && binding.grantId == row.grantId && binding.revision == row.revision
    && binding.grantHash == row.grantHash && binding.policyHash == row.policyHash
  }

  /** The binding that goes with a row agrees with it. */
  lemma BindingNames(row: Row)
    ensures Names(BindingOf(row), row)
  {
  }

  lemma PreparedIssue(st: Store, caller: Caller, cmd: Command, now: int, digest: Digest)
    requires cmd.Issue?
    ensures var p := PrepareIssue(st, caller, cmd, now, digest);
      && (MayIssue(st, caller, cmd, now, digest) ==> p.Write?)
      && (p.Write? ==>
            var row := FirstRow(caller, cmd, st.missions[cmd.mission].policy, now, digest);
            && Admits(st, caller, cmd) && ByCommand(st.rows, cmd.commandId).None? && Latest(st.rows, row.grantId).None?
            && p == Write(row, cmd.request, if cmd.request.Some? then Some(BindingOf(row)) else None))
  {
  }

  lemma FirstInsertable(st: Store, row: Row)
    requires row.revision == 1 && row.missionId in st.missions && Latest(st.rows, row.grantId).None?
    requires ByCommand(st.rows, row.commandId).None?
    ensures Insertable(st, row) <==> 0 <= row.notBefore < row.expires
  {
    NoneBeyond(st.rows, row.grantId);
  }

  lemma PutFirst(st: Store, row: Row, request: Option<string>)
    requires ByCommand(st.rows, row.commandId).None? && row.missionId in st.missions
    requires st.missions[row.missionId].tenant == row.tenant && RequestFits(st, request, row.missionId)
    ensures var (st', r) := Put(st, row, request, if request.Some? then Some(BindingOf(row)) else None);
      if !Insertable(st, row) || (request.Some? && request.value in st.bindings) then st' == st && r.Failure?
      else
        && r == Success(row) && st'.rows == st.rows + [row]
        && st'.bindings == if request.Some? then st.bindings[request.value := BindingOf(row)] else st.bindings
  {
  }

  /** An issue that may be made writes one row: revision 1, active, of the mission, tenant, scope and planner
      asked for, for the time of the mission's policy, and binds its request to it. Any other issue writes
      nothing. */
  lemma IssueTakesEffect(st: Store, caller: Caller, cmd: Command, now: int, digest: Digest)
    requires cmd.Issue?
    ensures var (st', r) := Call(st, caller, cmd, now, digest);
      if !MayIssue(st, caller, cmd, now, digest) then st' == st
      else
        var policy := st.missions[cmd.mission].policy;
        && r.Success? && st'.rows == st.rows + [r.value] && r.value.revision == 1 && r.value.active
        && r.value.missionId == cmd.mission && r.value.tenant == caller.tenant && r.value.scope == cmd.scope
        && r.value.planner == (if cmd.planner == "" then caller.principal else cmd.planner)
        && r.value.issuer == caller.principal && r.value.onBehalfOf == caller.principal && r.value.reason == "issue"
        && r.value.commandId == cmd.commandId && r.value.policyHash == policy.hash
        && r.value.decisions == policy.decisions && r.value.approvalSource == cmd.approval
        && r.value.notBefore == now && r.value.expires == now + policy.ttl
        && (cmd.request.Some? ==> Names(BindingOf(r.value), r.value))
        && st'.bindings == if cmd.request.Some? then st.bindings[cmd.request.value := BindingOf(r.value)]
                           else st.bindings
  {
    PreparedIssue(st, caller, cmd, now, digest);
    var p := PrepareIssue(st, caller, cmd, now, digest);
    if p.Write? {
      FirstInsertable(st, p.row);
      PutFirst(st, p.row, cmd.request);
    }
  }

  /** Two commands that name the same revision of the same grant and both take effect are one command. */
  lemma OneWinner(steps: seq<Step>, digest: Digest, a: Answered, b: Answered)
    requires Injective(digest) && a in Run(START, steps, digest).answers && b in Run(START, steps, digest).answers
    requires a.cmd.Change? && b.cmd.Change? && a.cmd.grantId == b.cmd.grantId && a.cmd.expected == b.cmd.expected
    ensures a.row == b.row && a.cmd.commandId == b.cmd.commandId
    ensures a.cmd.op == b.cmd.op && ReasonOf(a.cmd) == ReasonOf(b.cmd)
  {
    RunKeeps(START, steps, digest);
    var rows := Run(START, steps, digest).store.rows;
    RevisionOnce(rows, a.row, b.row);
    assert ChangeContent(a.cmd, a.row.missionId) == ChangeContent(b.cmd, a.row.missionId);
  }

  /** Sending an answered change again answers the original row and writes nothing, whatever has happened
      in between and whatever the missions look like now. */
  lemma ChangeReplayed(steps: seq<Step>, digest: Digest, a: Answered, now: int)
    requires Injective(digest) && a in Run(START, steps, digest).answers
    requires a.cmd.Change?
    ensures var st := Run(START, steps, digest).store;
      Call(st, a.caller, a.cmd, now, digest) == (st, Success(a.row))
  {
    RunKeeps(START, steps, digest);
    var rows := Run(START, steps, digest).store.rows;
    CommandOnce(rows, a.row);
    LatestTop(rows, a.row);
  }

  predicate SamePolicy(a: Policy, b: Policy) {
    a.version == b.version && a.hash == b.hash && a.decisions == b.decisions
  }

  /** Sending an answered issue again, with any approval source, answers the original row and writes
      nothing exactly while the mission is open under the same policy. */
  lemma IssueReplayed(steps: seq<Step>, digest: Digest, a: Answered, approval: string, now: int)
    requires Injective(digest) && a in Run(START, steps, digest).answers && a.cmd.Issue?
    ensures var st := Run(START, steps, digest).store;
      var cmd := a.cmd.(approval := approval);
      Call(st, a.caller, cmd, now, digest) == (st, Success(a.row)) <==>
        Admits(st, a.caller, cmd) && a.policy.Some? && SamePolicy(st.missions[cmd.mission].policy, a.policy.value)
  {
    RunKeeps(START, steps, digest);
    var st := Run(START, steps, digest).store;
    var cmd := a.cmd.(approval := approval);
    CommandOnce(st.rows, a.row);
    if Admits(st, a.caller, cmd) {
      var current := st.missions[cmd.mission].policy;
      assert IssueContent(a.caller, cmd, current) == IssueContent(a.caller, a.cmd, a.policy.value) <==>
             SamePolicy(current, a.policy.value);
    }
  }

  /** However often a command is sent, it makes at most one row, and every binding of a request repeats a
      row of the log. */
  lemma AppliedOnce(steps: seq<Step>, digest: Digest)
    requires Injective(digest)
    ensures var st := Run(START, steps, digest).store;
      && (forall i, j :: 0 <= i < j < |st.rows| ==> st.rows[i].commandId != st.rows[j].commandId)
      && forall q :: q in st.bindings ==> exists row :: row in st.rows && Names(st.bindings[q], row)
  {
    var st := Run(START, steps, digest).store;
    RunKeeps(START, steps, digest);
    CommandsDistinct(st.rows);
    forall q | q in st.bindings ensures exists row :: row in st.rows && Names(st.bindings[q], row) {
      var row :| row in st.rows && st.bindings[q] == BindingOf(row);
      BindingNames(row);
    }
  }

  lemma {:induction false} CommandsDistinct(rows: seq<Row>)
    requires LogOk(rows)
    ensures forall i, j :: 0 <= i < j < |rows| ==> rows[i].commandId != rows[j].commandId
    decreases |rows|
  {
    if rows != [] {
      CommandsDistinct(rows[..|rows| - 1]);
    }
  }
}
