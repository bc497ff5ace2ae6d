/** The persisted clock of `assurance/clock.py`, and what becomes of a certificate while it runs.

    The clock remembers the highest time it has seen. A lower reading is a rollback; the generation is
    the number of times the clock went from stable into rollback. A certificate names the generation it
    was issued in.
 */
module ClockCertificates {
  import opened Sequences

  const MAX_INTEGER := 9007199254740991

  datatype Phase = Stable | Rollback

  datatype ClockState = ClockState(generation: int, wallHigh: int, phase: Phase) {
    /** `__post_init__` */
    predicate Valid() { 0 <= generation <= MAX_INTEGER && 0 <= wallHigh <= MAX_INTEGER }
  }

  /** `observe`; no state when a number leaves the range of a stored integer. */
  function Observe(s: ClockState, now: int): Option<ClockState> {
    if !(0 <= now <= MAX_INTEGER) then None
    else
      var s' :=
        if now < s.wallHigh then ClockState(s.generation + (if s.phase.Stable? then 1 else 0), s.wallHigh, Rollback)
        else ClockState(s.generation, if now > s.wallHigh then now else s.wallHigh, Stable);
      if s'.Valid() then Some(s') else None
  }

  /** The clock after a run of observations; a refused one leaves it as it was. */
  function Watch(s: ClockState, times: seq<int>): ClockState {
    if times == [] then s
    else
      var s' := Watch(s, times[..|times| - 1]);
      match Observe(s', times[|times| - 1])
      case None => s'
      case Some(s'') => s''
  }

  /** The observations of a run that are not refused. */
  function Admitted(s: ClockState, times: seq<int>): seq<int> {
    if times == [] then []
    else
      var (earlier, now) := (times[..|times| - 1], times[|times| - 1]);
      if Observe(Watch(s, earlier), now).Some? then Admitted(s, earlier) + [now] else Admitted(s, earlier)
  }

  // ------------------------------------------------------- the run, said without the clock

  function Highest(start: int, times: seq<int>): (m: int)
    ensures start <= m && forall t :: t in times ==> t <= m
    ensures m == start || m in times
  {
    if times == [] then start
    else
      var (rest, last) := (Highest(start, times[..|times| - 1]), times[|times| - 1]);
      assert times == times[..|times| - 1] + [last];
      if last > rest then last else rest
  }

  /** The reading at `i` is below an earlier one. */
  predicate Behind(start: int, times: seq<int>, i: nat)
    requires i < |times|
  {
    times[i] < Highest(start, times[..i])
  }

  /** The reading at `i` is behind and the one before it was not. */
  predicate Entry(start: int, phase: Phase, times: seq<int>, i: nat)
    requires i < |times|
  {
    Behind(start, times, i) && if i == 0 then phase.Stable? else !Behind(start, times, i - 1)
  }

  /** How many of the first `n` readings enter a rollback. */
  function Entries(start: int, phase: Phase, times: seq<int>, n: nat): (e: nat)
    requires n <= |times|
    ensures e <= n
  {
    if n == 0 then 0
    else Entries(start, phase, times, n - 1) + if Entry(start, phase, times, n - 1) then 1 else 0
  }

  ghost predicate NonDecreasing(start: int, times: seq<int>) {
    forall i :: 0 <= i < |times| ==> !Behind(start, times, i)
  }

  lemma {:induction false} EntriesTake(start: int, phase: Phase, times: seq<int>, m: nat, n: nat)
    requires n <= m <= |times|
    ensures Entries(start, phase, times[..m], n) == Entries(start, phase, times, n)
  {
    if n > 0 {
      EntriesTake(start, phase, times, m, n - 1);
      assert times[..m][..n - 1] == times[..n - 1];
      if n > 1 { assert times[..m][..n - 2] == times[..n - 2]; }
    }
  }

  /** The state that readings leave behind, said without the clock. */
  ghost predicate Reached(s: ClockState, times: seq<int>, t: ClockState) {
    && t.wallHigh == Highest(s.wallHigh, times)
    && t.generation == s.generation + Entries(s.wallHigh, s.phase, times, |times|)
    && (t.phase.Rollback? <==> if times == [] then s.phase.Rollback? else Behind(s.wallHigh, times, |times| - 1))
  }

  lemma ReachedOneMore(s: ClockState, times: seq<int>, t: ClockState, now: int)
    requires Reached(s, times, t) && Observe(t, now).Some?
    ensures Reached(s, times + [now], Observe(t, now).value)
  {
    var (all, n) := (times + [now], |times|);
    assert all[..n] == times;
    EntriesTake(s.wallHigh, s.phase, all, n, n);
    if n > 0 { assert all[..n - 1] == times[..n - 1]; }
  }

  /** Over every run, counting the readings that are not refused, the high-water mark is the maximum seen, the
      generation counts the entries into rollback, and the clock is in rollback exactly when the last reading
      is behind. */
  lemma {:induction false} WatchMeans(s: ClockState, times: seq<int>)
    ensures Reached(s, Admitted(s, times), Watch(s, times))
  {
    if times != [] {
      var (earlier, now) := (times[..|times| - 1], times[|times| - 1]);
      WatchMeans(s, earlier);
      if Observe(Watch(s, earlier), now).Some? {
        ReachedOneMore(s, Admitted(s, earlier), Watch(s, earlier), now);
      }
    }
  }

  /** A reading is refused exactly when it is no stored time, or when it would open a rollback and the
      generation cannot grow. */
  lemma RefusedIff(s: ClockState, now: int)
    requires s.Valid()
    ensures Observe(s, now).None? <==>
              !(0 <= now <= MAX_INTEGER) || (now < s.wallHigh && s.phase.Stable? && s.generation == MAX_INTEGER)
    ensures Observe(s, now).Some? ==> Observe(s, now).value.Valid()
  {
  }

  lemma {:induction false} AdmittedConcat(s: ClockState, a: seq<int>, b: seq<int>)
    ensures Admitted(s, a) <= Admitted(s, a + b)
    decreases |b|
  {
    if b == [] {
      assert a + b == a;
    } else {
      assert (a + b)[..|a + b| - 1] == a + b[..|b| - 1];
      AdmittedConcat(s, a, b[..|b| - 1]);
    }
  }

  lemma {:induction false} NoEntryNonDecreasing(start: int, phase: Phase, times: seq<int>, n: nat)
    requires n <= |times| && phase.Stable?
    ensures Entries(start, phase, times, n) == 0 <==> forall i :: 0 <= i < n ==> !Behind(start, times, i)
  {
    if n > 0 {
      NoEntryNonDecreasing(start, phase, times, n - 1);
    }
  }

  /** From a stable clock, the generation stays exactly over the runs that never go back. */
  lemma SameGenerationIff(s: ClockState, times: seq<int>)
    requires s.phase.Stable?
    ensures Watch(s, times).generation == s.generation <==> NonDecreasing(s.wallHigh, Admitted(s, times))
    ensures NonDecreasing(s.wallHigh, Admitted(s, times)) ==> Watch(s, times).phase.Stable?
  {
    var admitted := Admitted(s, times);
    WatchMeans(s, times);
    NoEntryNonDecreasing(s.wallHigh, s.phase, admitted, |admitted|);
  }

  function Previous(start: int, times: seq<int>, i: nat): int
    requires i < |times|
  {
    if i == 0 then start else times[i - 1]
  }

  ghost predicate Ascending(start: int, times: seq<int>) {
    forall i :: 0 <= i < |times| ==> Previous(start, times, i) <= times[i]
  }

  lemma NonDecreasingLast(start: int, times: seq<int>)
    requires times != []
    ensures var n := |times| - 1;
      NonDecreasing(start, times) <==> NonDecreasing(start, times[..n]) && !Behind(start, times, n)
  {
    var n := |times| - 1;
    forall i | 0 <= i < n ensures Behind(start, times[..n], i) <==> Behind(start, times, i) {
      assert times[..n][..i] == times[..i];
    }
  }

  lemma AscendingLast(start: int, times: seq<int>)
    requires times != []
    ensures var n := |times| - 1;
      Ascending(start, times) <==> Ascending(start, times[..n]) && Previous(start, times, n) <= times[n]
  {
    var n := |times| - 1;
    forall i | 0 <= i < n
      ensures Previous(start, times[..n], i) == Previous(start, times, i) && times[..n][i] == times[i]
    {
    }
    if Ascending(start, times[..n]) && Previous(start, times, n) <= times[n] {
      forall i | 0 <= i < |times| ensures Previous(start, times, i) <= times[i] {
        if i < n { assert Previous(start, times[..n], i) <= times[..n][i]; }
      }
    }
  }

  /** Never going back is never reading less than just before; the maximum is then the last reading. */
  lemma {:induction false} NonDecreasingSteps(start: int, times: seq<int>)
    ensures NonDecreasing(start, times) <==> Ascending(start, times)
    ensures NonDecreasing(start, times) ==>
              Highest(start, times) == if times == [] then start else times[|times| - 1]
  {
    if times != [] {
      var n := |times| - 1;
      NonDecreasingSteps(start, times[..n]);
      NonDecreasingLast(start, times);
      AscendingLast(start, times);
      assert n > 0 ==> times[..n][n - 1] == times[n - 1];
    }
  }

  // ------------------------------------------------------------------------------ certificates

  datatype Certificate = Certificate(
    rowid: int, decision: string, root: string, missionEpoch: int, environmentEpoch: int, clockGeneration: int,
    notAfter: Option<int>)

  datatype Epochs = Epochs(mission: int, environment: int, clock: ClockState)

  datatype Use = UseUnavailable | UseBlocked | UseStale | UseUsable

  /** `max(rows, key=rowid)`: the first of the newest. */
  function Newest(rows: seq<Certificate>): (c: Certificate)
    requires rows != []
    ensures c in rows && forall r :: r in rows ==> r.rowid <= c.rowid
  {
    if |rows| == 1 then rows[0]
    else
      var rest := Newest(rows[1..]);
      if rows[0].rowid >= rest.rowid then rows[0] else rest
  }

  /** The reasons against a certificate, in the order in which they are given. */
  function Grounds(c: Certificate): seq<string> {
    ["ROOT_CHANGED", "SOURCE_CHANGED", "TIME_DISCONTINUITY", "EXPIRED", "CERTIFICATE_" + c.decision]
  }

  predicate Applies(c: Certificate, now: int, epochs: Epochs, root: string, i: int) {
    match i
    case 0 => c.root != root
    case 1 => (c.missionEpoch, c.environmentEpoch, c.clockGeneration)
                != (epochs.mission, epochs.environment, epochs.clock.generation)
    case 2 => epochs.clock.phase.Rollback?
    case 3 => c.notAfter.Some? && now >= c.notAfter.value
    case _ => c.decision != "USABLE"
  }

  /** Those of the first `n` reasons that apply. */
  function Against(c: Certificate, now: int, epochs: Epochs, root: string, n: nat): (reasons: seq<string>)
    requires n <= 5
    ensures reasons == [] <==> forall i :: 0 <= i < n ==> !Applies(c, now, epochs, root, i)
  {
    if n == 0 then []
    else if Applies(c, now, epochs, root, n - 1) then Against(c, now, epochs, root, n - 1) + [Grounds(c)[n - 1]]
    else Against(c, now, epochs, root, n - 1)
  }

  ghost predicate Stands(c: Certificate, now: int, epochs: Epochs, root: string) {
    && c.decision == "USABLE" && c.root == root
    && c.missionEpoch == epochs.mission && c.environmentEpoch == epochs.environment
    && c.clockGeneration == epochs.clock.generation && epochs.clock.phase.Stable?
    && (c.notAfter.Some? ==> now < c.notAfter.value)
  }

  /** `_certificate_use` */
  method CertificateUse(rows: seq<Certificate>, now: int, epochs: Epochs, root: string)
    returns (use: Use, reasons: seq<string>)
    ensures use == UseOf(rows, now, epochs, root)
    ensures use.UseUsable? <==> reasons == []
    ensures rows == [] ==> reasons == ["NO_COMMITTED_CERTIFICATE"]
    ensures use.UseBlocked? ==> reasons == ["CERTIFICATE_BLOCKED"]
    ensures use.UseStale? || use.UseUsable? ==> reasons == Against(Newest(rows), now, epochs, root, 5)
  {
    if rows == [] {
      return UseUnavailable, ["NO_COMMITTED_CERTIFICATE"];
    }
    var row := Newest(rows);
    reasons := [];
    if row.decision == "BLOCKED" {
      return UseBlocked, ["CERTIFICATE_BLOCKED"];
    }
    if row.root != root {
      reasons := reasons + ["ROOT_CHANGED"];
    }
    assert reasons == Against(row, now, epochs, root, 1);
    if (row.missionEpoch, row.environmentEpoch, row.clockGeneration)
       != (epochs.mission, epochs.environment, epochs.clock.generation) {
      reasons := reasons + ["SOURCE_CHANGED"];
    }
    assert reasons == Against(row, now, epochs, root, 2);
    if !epochs.clock.phase.Stable? {
      reasons := reasons + ["TIME_DISCONTINUITY"];
    }
    assert reasons == Against(row, now, epochs, root, 3);
    if row.notAfter.Some? && now >= row.notAfter.value {
      reasons := reasons + ["EXPIRED"];
    }
    assert reasons == Against(row, now, epochs, root, 4);
    if row.decision != "USABLE" {
      reasons := reasons + ["CERTIFICATE_" + row.decision];
    }
    assert reasons == Against(row, now, epochs, root, 5);
    StandsIff(row, now, epochs, root);
    use := if reasons == [] then UseUsable else UseStale;
  }

  ghost function UseOf(rows: seq<Certificate>, now: int, epochs: Epochs, root: string): Use {
    if rows == [] then UseUnavailable
    else if Newest(rows).decision == "BLOCKED" then UseBlocked
    else if Stands(Newest(rows), now, epochs, root) then UseUsable
    else UseStale
  }

  function When(holds: bool, reason: string): seq<string> { if holds then [reason] else [] }

  /** Which answer is given when: none without a certificate, blocked exactly by the newest one's decision, and
      otherwise usable exactly when nothing stands against it. */
  lemma UseMeans(rows: seq<Certificate>, now: int, epochs: Epochs, root: string)
    ensures var use := UseOf(rows, now, epochs, root);
      && (use == UseUnavailable <==> rows == [])
      && (use == UseBlocked <==> rows != [] && Newest(rows).decision == "BLOCKED")
      && (use == UseUsable <==> rows != [] && Against(Newest(rows), now, epochs, root, 5) == [])
      && (use == UseStale <==>
            rows != [] && Newest(rows).decision != "BLOCKED" && Against(Newest(rows), now, epochs, root, 5) != [])
  {
    if rows != [] {
      StandsIff(Newest(rows), now, epochs, root);
    }
  }

  /** The reasons, each with what it stands for, in the order in which they are given. */
  lemma ReasonsMean(c: Certificate, now: int, epochs: Epochs, root: string)
    ensures Against(c, now, epochs, root, 5)
         == When(c.root != root, "ROOT_CHANGED")
            + When(c.missionEpoch != epochs.mission || c.environmentEpoch != epochs.environment
                   || c.clockGeneration != epochs.clock.generation, "SOURCE_CHANGED")
            + When(epochs.clock.phase != Stable, "TIME_DISCONTINUITY")
            + When(c.notAfter != None && now >= c.notAfter.value, "EXPIRED")
            + When(c.decision != "USABLE", "CERTIFICATE_" + c.decision)
  {
    assert Against(c, now, epochs, root, 0) == [];
    assert Against(c, now, epochs, root, 1) == When(c.root != root, "ROOT_CHANGED");
    assert Against(c, now, epochs, root, 2)
        == Against(c, now, epochs, root, 1) + When(Applies(c, now, epochs, root, 1), "SOURCE_CHANGED");
    assert Against(c, now, epochs, root, 3)
        == Against(c, now, epochs, root, 2) + When(Applies(c, now, epochs, root, 2), "TIME_DISCONTINUITY");
    assert Against(c, now, epochs, root, 4)
        == Against(c, now, epochs, root, 3) + When(Applies(c, now, epochs, root, 3), "EXPIRED");
    assert Against(c, now, epochs, root, 5)
        == Against(c, now, epochs, root, 4) + When(Applies(c, now, epochs, root, 4), "CERTIFICATE_" + c.decision);
  }

  /** The newest certificate stands at `i`, and none before it is as new. */
  predicate FirstNewest(rows: seq<Certificate>, i: nat) {
    && i < |rows| && rows[i] == Newest(rows)
    && forall j :: 0 <= j < i ==> rows[j].rowid < rows[i].rowid
  }

  /** Of two certificates with one row number the earlier is taken for the newest. */
  lemma {:induction false} NewestIsFirst(rows: seq<Certificate>)
    requires rows != []
    ensures exists i: nat :: FirstNewest(rows, i)
  {
    if |rows| == 1 {
      assert FirstNewest(rows, 0);
    } else {
      var rest := rows[1..];
      NewestIsFirst(rest);
      var i: nat :| FirstNewest(rest, i);
      assert FirstNewest(rows, if rows[0].rowid >= rest[i].rowid then 0 else i + 1);
    }
  }

  lemma StandsIff(c: Certificate, now: int, epochs: Epochs, root: string)
    ensures Against(c, now, epochs, root, 5) == [] <==> Stands(c, now, epochs, root)
  {
    if forall i :: 0 <= i < 5 ==> !Applies(c, now, epochs, root, i) {
      assert !Applies(c, now, epochs, root, 0) && !Applies(c, now, epochs, root, 1);
      assert !Applies(c, now, epochs, root, 2) && !Applies(c, now, epochs, root, 3);
      assert !Applies(c, now, epochs, root, 4);
    }
  }

  /** The newest certificate was issued in the generation and under the stable clock of `then`. */
  ghost predicate IssuedUnder(rows: seq<Certificate>, issued: ClockState) {
    rows != [] && issued.phase.Stable? && Newest(rows).clockGeneration == issued.generation
  }

  /** A certificate issued under a stable clock is usable after a run of observations exactly when it says
      so, the root and both epochs are the same, no reading went back, and its deadline is ahead. */
  lemma UsableIff(rows: seq<Certificate>, issued: ClockState, times: seq<int>, now: int, epochs: Epochs, root: string)
    requires IssuedUnder(rows, issued) && Watch(issued, times) == epochs.clock
    ensures var c := Newest(rows);
      UseOf(rows, now, epochs, root).UseUsable? <==>
        && c.decision == "USABLE" && c.root == root
        && c.missionEpoch == epochs.mission && c.environmentEpoch == epochs.environment
        && NonDecreasing(issued.wallHigh, Admitted(issued, times))
        && (c.notAfter.Some? ==> now < c.notAfter.value)
  {
    SameGenerationIff(issued, times);
  }

  /** A usable certificate saw only readings in order. The time at which it is looked at is not observed; it
      goes on in that order exactly when it is not below the high-water mark, and then the deadline is ahead of
      every reading. Of the readings alone that holds exactly when the mark itself is before the deadline. */
  lemma UsableSawTimesInOrder(
    rows: seq<Certificate>, issued: ClockState, times: seq<int>, now: int, epochs: Epochs, root: string)
    requires IssuedUnder(rows, issued) && Watch(issued, times) == epochs.clock
    requires UseOf(rows, now, epochs, root).UseUsable?
    ensures var (seen, deadline) := (Admitted(issued, times), Newest(rows).notAfter);
      && Ascending(issued.wallHigh, seen)
      && (Ascending(issued.wallHigh, seen + [now]) <==> epochs.clock.wallHigh <= now)
      && (deadline.Some? && epochs.clock.wallHigh <= now ==> forall t :: t in seen + [now] ==> t < deadline.value)
      && (deadline.Some? ==>
            ((forall t :: t in seen ==> t < deadline.value) <==>
              seen == [] || epochs.clock.wallHigh < deadline.value))
  {
    var seen := Admitted(issued, times);
    UsableIff(rows, issued, times, now, epochs, root);
    NonDecreasingSteps(issued.wallHigh, seen);
    WatchMeans(issued, times);
    AscendingLast(issued.wallHigh, seen + [now]);
    assert (seen + [now])[..|seen|] == seen;
    if seen != [] { assert seen[|seen| - 1] in seen; }
  }

  /** An expired certificate is usable again: its deadline is 100, the clock observed 150, and it is looked at
      at 50, below the high-water mark and without an observation. */
  lemma UsableAfterDeadline(epochs: Epochs)
    requires epochs.clock == Watch(ClockState(0, 5, Stable), [150])
    ensures var c := Certificate(1, "USABLE", "root", epochs.mission, epochs.environment, 0, Some(100));
      && IssuedUnder([c], ClockState(0, 5, Stable)) && Admitted(ClockState(0, 5, Stable), [150]) == [150]
      && UseOf([c], 150, epochs, "root").UseStale? && UseOf([c], 50, epochs, "root").UseUsable?
  {
    var s := ClockState(0, 5, Stable);
    assert [150][..0] == [];
    assert Watch(s, [150][..0]) == s && Admitted(s, [150][..0]) == [];
    assert Observe(s, 150) == Some(ClockState(0, 150, Stable));
  }

  /** After one rollback a certificate is never usable again, whatever is observed later. */
  lemma RollbackIsFinal(
    rows: seq<Certificate>, issued: ClockState, times: seq<int>, later: seq<int>, now: int, epochs: Epochs,
    root: string)
    requires IssuedUnder(rows, issued) && Watch(issued, times + later) == epochs.clock
    requires !NonDecreasing(issued.wallHigh, Admitted(issued, times))
    ensures !UseOf(rows, now, epochs, root).UseUsable?
  {
    var (seen, all) := (Admitted(issued, times), Admitted(issued, times + later));
    UsableIff(rows, issued, times + later, now, epochs, root);
    AdmittedConcat(issued, times, later);
    var i :| 0 <= i < |seen| && Behind(issued.wallHigh, seen, i);
    assert all[..i] == seen[..i];
    assert Behind(issued.wallHigh, all, i);
  }
}
