/** Where the rows of the log come from: when each was prepared, and what its hashes cover. */
module GrantHistory {
  import opened Sequences
  import opened PlanningGrants
  import opened GrantLineage

  // ------------------------------------------------------------------------------ closed missions

  /** While a mission is absent, another tenant's or ended, every issue for it is refused and writes nothing. */
  lemma ClosedMissionIssues(st: Store, caller: Caller, cmd: Command, now: int, digest: Digest)
    requires cmd.Issue? && !Open(st, caller, cmd.mission)
    ensures var (st', r) := Call(st, caller, cmd, now, digest);
      && st' == st
      && (if cmd.approval != "HUMAN" && cmd.approval != "HOST_AUTO_PERMISSION" then r == Failure(BadApprovalSource)
          else if cmd.mission in st.missions && st.missions[cmd.mission].tenant == caller.tenant then
            r == Failure(MissionTerminal)
          else r == Failure(MissionUnavailable))
  {
  }

  /** So is every change whose command is new; only a command already in the log is answered, with its own row. */
  lemma ClosedMissionChanges(st: Store, caller: Caller, cmd: Command, now: int, digest: Digest)
    requires cmd.Change?
    requires forall row :: row in st.rows && row.grantId == cmd.grantId ==> !Open(st, caller, row.missionId)
    ensures var (st', r) := Call(st, caller, cmd, now, digest);
      && st' == st
      && ((forall row :: row in st.rows ==> row.commandId != cmd.commandId) ==> r.Failure?)
      && (r.Success? ==> r.value in st.rows && r.value.commandId == cmd.commandId)
  {
  }

  /** What a change under a new command is refused as: the first thing that is wrong with it. */
  lemma ChangeRefusals(st: Store, caller: Caller, cmd: Command, now: int, digest: Digest)
    requires cmd.Change? && LogOk(st.rows) && forall row :: row in st.rows ==> row.commandId != cmd.commandId
    ensures var (latest, r) := (Latest(st.rows, cmd.grantId), Call(st, caller, cmd, now, digest).1);
      if cmd.op == Revoke && TextLines.Blank(cmd.detail) then r == Failure(ReasonMissing)
      else if latest == None || latest.value.tenant != caller.tenant || latest.value.issuer != caller.principal then
        r == Failure(GrantUnavailable)
      else if latest.value.revision != cmd.expected then r == Failure(StaleRevision)
      else if !Open(st, caller, latest.value.missionId) then
        r in {Failure(MissionTerminal), Failure(MissionUnavailable)}
      else if cmd.op == Renew && !latest.value.active then r == Failure(RevokedRenewal)
      else r.Success? || r == Failure(InsertConflict)
  {
    PreparedIff(st, caller, cmd, now, digest);
    if MayChange(st, caller, cmd) {
      ChangeTakesEffect(st, caller, cmd, now, digest);
    }
  }

  /** A command already in the log: another issuer is told that there is no such grant, and other content under the
      same id is refused; nothing is written, and an answer is the row itself. */
  lemma KnownCommand(st: Store, caller: Caller, cmd: Command, now: int, digest: Digest, row: Row)
    requires LogOk(st.rows) && row in st.rows && row.commandId == cmd.commandId
    requires if cmd.Issue? then Admits(st, caller, cmd) else cmd.op == Revoke ==> !TextLines.Blank(cmd.detail)
    ensures var (st', r) := Call(st, caller, cmd, now, digest);
      && st' == st
      && (row.tenant != caller.tenant || row.issuer != caller.principal ==> r == Failure(GrantUnavailable))
      && (row.tenant == caller.tenant && row.issuer == caller.principal ==>
            r == Success(row) || r == Failure(CommandReused))
  {
    CommandOnce(st.rows, row);
  }

  // ------------------------------------------------------------------------- when a row was prepared

  /** Step `i` of the run began the command of this row, for its tenant and issuer, and its mission was open then. */
  ghost predicate BegunAt(steps: seq<Step>, digest: Digest, i: nat, row: Row)
    requires i < |steps|
  {
    var st := Run(START, steps[..i], digest).store;
    && steps[i].Begin? && steps[i].cmd.commandId == row.commandId
    && steps[i].caller.tenant == row.tenant && steps[i].caller.principal == row.issuer
    && row.missionId in st.missions && st.missions[row.missionId].tenant == row.tenant
    && !st.missions[row.missionId].terminal
    && (row.revision == 1 ==>
          && st.missions[row.missionId].decisionProtocol && row.policyHash == st.missions[row.missionId].policy.hash
          && row.expires == row.notBefore + st.missions[row.missionId].policy.ttl)
  }

  ghost predicate Begun(steps: seq<Step>, digest: Digest, row: Row) {
    exists i: nat :: i < |steps| && BegunAt(steps, digest, i, row)
  }

  lemma BegunEarlier(steps: seq<Step>, digest: Digest, row: Row)
    requires steps != [] && Begun(steps[..|steps| - 1], digest, row)
    ensures Begun(steps, digest, row)
  {
    var earlier := steps[..|steps| - 1];
    var i: nat :| i < |earlier| && BegunAt(earlier, digest, i, row);
    assert earlier[..i] == steps[..i] && earlier[i] == steps[i];
    assert BegunAt(steps, digest, i, row);
  }

  /** What a row that is left waiting says of its mission. */
  ghost predicate FitsMission(st: Store, caller: Caller, row: Row) {
    && row.tenant == caller.tenant && row.issuer == caller.principal && Open(st, caller, row.missionId)
    && (row.revision == 1 ==>
          && st.missions[row.missionId].decisionProtocol && row.policyHash == st.missions[row.missionId].policy.hash
          && row.expires == row.notBefore + st.missions[row.missionId].policy.ttl)
  }

  lemma FirstFits(st: Store, caller: Caller, cmd: Command, now: int, digest: Digest)
    requires cmd.Issue? && Open(st, caller, cmd.mission) && st.missions[cmd.mission].decisionProtocol
    ensures FitsMission(st, caller, FirstRow(caller, cmd, st.missions[cmd.mission].policy, now, digest))
  {
  }

  lemma NextFits(st: Store, caller: Caller, current: Row, cmd: Command, now: int, digest: Digest)
    requires cmd.Change? && Open(st, caller, current.missionId) && current.revision >= 1
    requires current.tenant == caller.tenant && current.issuer == caller.principal
    ensures FitsMission(st, caller, NextRow(current, cmd, st.missions[current.missionId].policy, now, digest))
  {
  }

  /** What `Prepare` needs to leave a row waiting. */
  lemma WriteNeedsOpen(st: Store, caller: Caller, cmd: Command, now: int, digest: Digest)
    requires Prepare(st, caller, cmd, now, digest).Write? && LogOk(st.rows)
    ensures var row := Prepare(st, caller, cmd, now, digest).row;
      row.commandId == cmd.commandId && FitsMission(st, caller, row)
  {
    if cmd.Change? {
      var current := Latest(st.rows, cmd.grantId).value;
      PreparedIff(st, caller, cmd, now, digest);
      LatestTop(st.rows, current);
      NextFits(st, caller, current, cmd, now, digest);
    } else {
      PreparedIssue(st, caller, cmd, now, digest);
      FirstFits(st, caller, cmd, now, digest);
    }
  }

  /** Every row of the log, and every row on its way to it. */
  ghost predicate AllBegun(s: System, steps: seq<Step>, digest: Digest) {
    && (forall row :: row in s.store.rows ==> Begun(steps, digest, row))
    && (forall f :: f in s.flights ==> Begun(steps, digest, f.row))
  }

  lemma WaitingRows(s: System, step: Step, digest: Digest)
    ensures var s' := Next(s, step, digest);
      && (forall row :: row in s'.store.rows ==> row in s.store.rows || exists f :: f in s.flights && f.row == row)
      && (forall f :: f in s'.flights ==> f in s.flights || (step.Begin? && Wrote(s, step, digest, f.row)))
  {
    if step.Finish? && step.k < |s.flights| {
      var f := s.flights[step.k];
      var (st', r) := Put(s.store, f.row, f.request, f.binding);
      PutOutcome(s.store, f, st', r);
      assert f in s.flights;
      assert forall g :: g in Without(s.flights, step.k) ==> g in s.flights;
      if Inserted(s.store, f, st', r) {
        TakeConcat(s.store.rows, f.row);
      }
    }
  }

  ghost predicate Wrote(s: System, step: Step, digest: Digest, row: Row)
    requires step.Begin?
  {
    var p := Prepare(s.store, step.caller, step.cmd, step.now, digest);
    p.Write? && p.row == row
  }

  lemma BegunNow(s: System, earlier: seq<Step>, step: Step, digest: Digest, row: Row)
    requires s == Run(START, earlier, digest) && LogOk(s.store.rows) && step.Begin? && Wrote(s, step, digest, row)
    ensures Begun(earlier + [step], digest, row)
  {
    var steps := earlier + [step];
    TakeConcat(earlier, step);
    WriteNeedsOpen(s.store, step.caller, step.cmd, step.now, digest);
    assert BegunAt(steps, digest, |earlier|, row);
  }

  lemma StepBegun(s: System, earlier: seq<Step>, step: Step, digest: Digest)
    requires s == Run(START, earlier, digest) && LogOk(s.store.rows) && AllBegun(s, earlier, digest)
    ensures AllBegun(Next(s, step, digest), earlier + [step], digest)
  {
    var (s', steps) := (Next(s, step, digest), earlier + [step]);
    TakeConcat(earlier, step);
    WaitingRows(s, step, digest);
    forall row | Begun(earlier, digest, row) ensures Begun(steps, digest, row) {
      BegunEarlier(steps, digest, row);
    }
    forall f | f in s'.flights ensures Begun(steps, digest, f.row) {
      if f !in s.flights {
        BegunNow(s, earlier, step, digest, f.row);
      }
    }
  }

  /** Over every run: whatever happened to the missions since, each row was prepared by a command begun earlier, in a
      state in which its mission was present, of the caller's tenant, and not terminal; the first row of a grant also
      under the policy that the mission had then. */
  lemma {:induction false} RowsWerePrepared(steps: seq<Step>, digest: Digest)
    requires Injective(digest)
    ensures AllBegun(Run(START, steps, digest), steps, digest)
  {
    if steps != [] {
      var (earlier, step) := (steps[..|steps| - 1], steps[|steps| - 1]);
      RowsWerePrepared(earlier, digest);
      RunKeeps(START, earlier, digest);
      StepBegun(Run(START, earlier, digest), earlier, step, digest);
      assert steps == earlier + [step];
    }
  }

  // ------------------------------------------------------------------------------- what stays

  /** The write transaction looks again: a row for a request that is not, or no longer, one of its mission, or for a
      mission that is gone or another tenant's, is not written; nor is one for a request that has a grant. */
  lemma PutLooksAgain(st: Store, row: Row, request: string, binding: Binding)
    requires forall r :: r in st.rows ==> r.commandId != row.commandId
    ensures var (st', r) := Put(st, row, Some(request), Some(binding));
      && (r.Success? ==>
            && request in st.requests && st.requests[request] == row.missionId && row.missionId in st.missions
            && st.missions[row.missionId].tenant == row.tenant && request !in st.bindings
            && request in st'.bindings && st'.bindings[request] == binding)
      && (r.Failure? ==> st' == st)
  {
  }

  /** Every row and every binding of a request is still there. */
  ghost predicate Keeps(st: Store, st': Store) {
    && st.rows <= st'.rows
    && forall q :: q in st.bindings ==> q in st'.bindings && st'.bindings[q] == st.bindings[q]
  }

  lemma StepKeepsAll(s: System, step: Step, digest: Digest)
    ensures Keeps(s.store, Next(s, step, digest).store)
  {
    if step.Finish? && step.k < |s.flights| {
      var f := s.flights[step.k];
      PutKeeps(s.store, f.row, f.request, f.binding);
    }
  }

  lemma PutKeeps(st: Store, row: Row, request: Option<string>, binding: Option<Binding>)
    ensures Keeps(st, Put(st, row, request, binding).0)
  {
    TakeConcat(st.rows, row);
  }

  lemma KeepsOn(a: Store, b: Store, c: Store)
    requires Keeps(a, b) && Keeps(b, c)
    ensures Keeps(a, c)
  {
  }

  lemma LastStep(steps: seq<Step>, digest: Digest)
    requires steps != []
    ensures var n := |steps| - 1; Run(START, steps, digest) == Next(Run(START, steps[..n], digest), steps[n], digest)
  {
  }

  /** Over every run: nothing that was written is taken back or overwritten, neither a row nor the grant that a request
      was bound to. */
  lemma {:induction false} NothingTakenBack(steps: seq<Step>, i: nat, digest: Digest)
    requires i <= |steps|
    ensures Keeps(Run(START, steps[..i], digest).store, Run(START, steps, digest).store)
    decreases |steps|
  {
    if i == |steps| {
      TakeAll(steps);
    } else {
      var n := |steps| - 1;
      var (first, before) := (Run(START, steps[..i], digest), Run(START, steps[..n], digest));
      var after := Next(before, steps[n], digest);
      assert steps[..n][..i] == steps[..i];
      NothingTakenBack(steps[..n], i, digest);
      StepKeepsAll(before, steps[n], digest);
      KeepsOn(first.store, before.store, after.store);
      LastStep(steps, digest);
    }
  }

  // --------------------------------------------------------------------------- what the hashes cover

  /** The receipt covers the command, the grant, its revision and the grant's hash; the grant's hash covers the
      command's content and the times of a first row, and the standing of a later one. */
  ghost predicate Sealed(row: Row, digest: Digest) {
    && row.receiptHash == digest(ReceiptBody(row.commandHash, row.grantId, row.revision, row.grantHash))
    && (row.revision == 1 ==> SealedFirst(row, digest))
    && (row.revision > 1 ==>
          row.grantHash == digest(ChangedGrantBody(row.grantId, row.revision, row.active, row.policyHash, row.expires)))
  }

  ghost predicate SealedFirst(row: Row, digest: Digest) {
    exists body :: row.commandHash == digest(body) && IssueSealed(row, body, digest)
  }

  ghost predicate IssueSealed(row: Row, body: Body, digest: Digest) {
    row.grantHash == digest(IssuedGrantBody(body, row.grantId, 1, row.notBefore, row.expires))
  }

  lemma FirstSealed(caller: Caller, cmd: Command, policy: Policy, now: int, digest: Digest)
    requires cmd.Issue?
    ensures Sealed(FirstRow(caller, cmd, policy, now, digest), digest)
  {
    var row := FirstRow(caller, cmd, policy, now, digest);
    assert IssueSealed(row, IssueContent(caller, cmd, policy), digest);
  }

  lemma NextSealed(current: Row, cmd: Command, policy: Policy, now: int, digest: Digest)
    requires cmd.Change? && current.revision >= 1 && current.grantId == cmd.grantId
    ensures Sealed(NextRow(current, cmd, policy, now, digest), digest)
  {
  }

  lemma WriteSeals(st: Store, caller: Caller, cmd: Command, now: int, digest: Digest)
    requires Prepare(st, caller, cmd, now, digest).Write? && LogOk(st.rows)
    ensures Sealed(Prepare(st, caller, cmd, now, digest).row, digest)
  {
    if cmd.Change? {
      var current := Latest(st.rows, cmd.grantId).value;
      PreparedIff(st, caller, cmd, now, digest);
      LatestTop(st.rows, current);
      NextSealed(current, cmd, st.missions[current.missionId].policy, now, digest);
    } else {
      PreparedIssue(st, caller, cmd, now, digest);
      FirstSealed(caller, cmd, st.missions[cmd.mission].policy, now, digest);
    }
  }

  ghost predicate AllSealed(s: System, digest: Digest) {
    && (forall row :: row in s.store.rows ==> Sealed(row, digest))
    && (forall f :: f in s.flights ==> Sealed(f.row, digest))
  }

  /** Over every run, every row of the log is sealed. */
  lemma {:induction false} RowsAreSealed(steps: seq<Step>, digest: Digest)
    requires Injective(digest)
    ensures AllSealed(Run(START, steps, digest), digest)
  {
    if steps != [] {
      var (earlier, step) := (steps[..|steps| - 1], steps[|steps| - 1]);
      var s := Run(START, earlier, digest);
      RowsAreSealed(earlier, digest);
      RunKeeps(START, earlier, digest);
      WaitingRows(s, step, digest);
      if step.Begin? && Prepare(s.store, step.caller, step.cmd, step.now, digest).Write? {
        WriteSeals(s.store, step.caller, step.cmd, step.now, digest);
      }
    }
  }
}
