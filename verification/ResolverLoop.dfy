/** The loops of `resolve_declared_inputs`, proved to compute `Resolution.Resolve`. */
module ResolverLoop {
  import opened InputModel
  import opened Ordering
  import opened Sequences
  import opened Resolution
  import opened ResolutionFacts

  /** `per_port` holds, for each port that has any, the entries found so far. */
  ghost predicate Grouping(perPort: map<string, seq<Entry>>, fs: seq<Finding>) {
    && (forall port :: port in perPort ==> perPort[port] == EntriesAt(fs, port) != [])
    && (forall port :: port !in perPort ==> EntriesAt(fs, port) == [])
  }

  lemma Appended(fs: seq<Finding>, f: Finding)
    ensures ProblemsOf(fs + [f]) == if f.Licensed? then ProblemsOf(fs) else ProblemsOf(fs) + [f.problem]
    ensures PendingOf(fs + [f]) == if f.Waiting? then PendingOf(fs) + [f.symbolic] else PendingOf(fs)
    ensures forall port :: EntriesAt(fs + [f], port) ==
              if f.Licensed? && f.entry.requirement.inputPort == port then EntriesAt(fs, port) + [f.entry]
              else EntriesAt(fs, port)
  {
    CollectConcat(fs, [f], ProblemIn);
    CollectConcat(fs, [f], PendingIn);
    forall port ensures EntriesAt(fs + [f], port) ==
              if f.Licensed? && f.entry.requirement.inputPort == port then EntriesAt(fs, port) + [f.entry]
              else EntriesAt(fs, port)
    {
      CollectConcat(fs, [f], EntryAt(port));
    }
  }

  method AddEntry(perPort: map<string, seq<Entry>>, e: Entry, ghost fs: seq<Finding>)
    returns (grown: map<string, seq<Entry>>)
    requires Grouping(perPort, fs)
    ensures Grouping(grown, fs + [Licensed(e)])
  {
    var port := e.requirement.inputPort;
    grown := perPort[port := (if port in perPort then perPort[port] else []) + [e]];
    Appended(fs, Licensed(e));
  }

  /** The body of the candidate loop. */
  method WeighOne(q: Question, r: DataRequirement, spec: PortSpec, candidate: AcceptedOutput,
                  problems: seq<Problem>, perPort: map<string, seq<Entry>>, ghost fs: seq<Finding>)
    returns (problems': seq<Problem>, perPort': map<string, seq<Entry>>)
    requires problems == ProblemsOf(fs) && Grouping(perPort, fs)
    ensures var fs' := fs + [Weigh(q, r, spec, candidate)];
      problems' == ProblemsOf(fs') && Grouping(perPort', fs') && PendingOf(fs') == PendingOf(fs)
  {
    problems', perPort' := problems, perPort;
    ghost var f := Weigh(q, r, spec, candidate);
    WeighShape(q, r, spec, candidate);
    Appended(fs, f);
    if candidate.disclosure != Disclosable {
      problems' := problems' + [Complain(q, NotDisclosable, NotReadable(candidate.artifactId, candidate.disclosure),
                                         r.inputPort, [r.requirementId], [candidate.artifactId])];
      return;
    }
    var converter := CheckSchema(q, r, spec, candidate);
    if converter.Failure? {
      problems' := problems' + [converter.error];
      return;
    }
    if candidate.provisional && r.inputPort !in q.policy.provisionalPorts {
      problems' := problems' + [Complain(q, ProvisionalNotAuthorized,
                                         SpeculationNotAuthorised(candidate.artifactId, r.inputPort),
                                         r.inputPort, [r.requirementId], [candidate.artifactId])];
      return;
    }
    var witnessId := CheckWitness(q, r, candidate);
    if witnessId.Failure? {
      problems' := problems' + [witnessId.error];
      return;
    }
    perPort' := AddEntry(perPort', Entry(r, candidate, converter.value, witnessId.value), fs);
  }

  lemma FoundOneMore(fs: seq<Finding>, candidates: seq<AcceptedOutput>, i: nat, weigh: AcceptedOutput -> Finding)
    requires i < |candidates|
    ensures fs + Map(candidates[..i], weigh) + [weigh(candidates[i])] == fs + Map(candidates[..i + 1], weigh)
  {
    MapTakeOne(candidates, i, weigh);
  }

  /** The candidate loop of one ready requirement. */
  method WeighCandidates(q: Question, r: DataRequirement, spec: PortSpec, candidates: seq<AcceptedOutput>,
                         problems: seq<Problem>, perPort: map<string, seq<Entry>>, ghost fs: seq<Finding>)
    returns (problems': seq<Problem>, perPort': map<string, seq<Entry>>)
    requires problems == ProblemsOf(fs) && Grouping(perPort, fs)
    ensures var fs' := fs + Map(candidates, Weigher(q, r, spec));
      problems' == ProblemsOf(fs') && Grouping(perPort', fs') && PendingOf(fs') == PendingOf(fs)
  {
    problems', perPort' := problems, perPort;
    ghost var (found, weigh) := (fs, Weigher(q, r, spec));
    assert fs + Map(candidates[..0], weigh) == fs;
    for i := 0 to |candidates|
      invariant found == fs + Map(candidates[..i], weigh)
      invariant problems' == ProblemsOf(found) && Grouping(perPort', found) && PendingOf(found) == PendingOf(fs)
    {
      problems', perPort' := WeighOne(q, r, spec, candidates[i], problems', perPort', found);
      FoundOneMore(fs, candidates, i, weigh);
      found := found + [weigh(candidates[i])];
    }
    TakeAll(candidates);
  }

  /** The body of the requirement loop. */
  method ExamineOne(q: Question, r: DataRequirement, accepted: AcceptedIndex, problems: seq<Problem>,
                    pending: seq<SymbolicBinding>, perPort: map<string, seq<Entry>>, ghost fs: seq<Finding>)
    returns (problems': seq<Problem>, pending': seq<SymbolicBinding>, perPort': map<string, seq<Entry>>)
    requires problems == ProblemsOf(fs) && pending == PendingOf(fs) && Grouping(perPort, fs)
    ensures var fs' := fs + Examine(q, accepted, r);
      problems' == ProblemsOf(fs') && pending' == PendingOf(fs') && Grouping(perPort', fs')
  {
    problems', pending', perPort' := problems, pending, perPort;
    ghost var more := Examine(q, accepted, r);
    if |more| == 1 {
      Appended(fs, more[0]);
      assert more == [more[0]];
    }
    if r.consumerOccurrence != q.occurrence {
      problems' := problems + [Complain(q, ForeignRequirement,
                                        FeedsOther(r.requirementId, r.consumerOccurrence, q.occurrence),
                                        r.inputPort, [r.requirementId], [])];
      return;
    }
    var port := PortOf(q.consumer.inputPorts, r.inputPort);
    if port.None? {
      problems' := problems + [Complain(q, UndeclaredPort,
                                        PortNotDeclared(r.requirementId, r.inputPort, q.consumer.taskId),
                                        r.inputPort, [r.requirementId], [])];
      return;
    }
    if r.producerOccurrence !in accepted.completed {
      pending' := pending + [SymbolicBinding(r.requirementId, r.producerOccurrence, r.outputPort,
                                             q.consumer.taskId, r.inputPort)];
      problems' := problems + [Complain(q, PendingProducer, NotFinished(r.producerOccurrence, r.requirementId),
                                        r.inputPort, [r.requirementId], [])];
      return;
    }
    var narrowed := SelectByRevision(q, accepted, r);
    if narrowed.Failure? {
      problems' := problems + [narrowed.error];
      return;
    }
    problems', perPort' := WeighCandidates(q, r, port.value, narrowed.value, problems, perPort, fs);
  }

  /** The requirement loop. */
  method ExamineRequirements(q: Question, sorted: seq<DataRequirement>, accepted: AcceptedIndex)
    returns (problems: seq<Problem>, pending: seq<SymbolicBinding>, perPort: map<string, seq<Entry>>)
    ensures var fs := ExamineAll(q, accepted, sorted);
      problems == ProblemsOf(fs) && pending == PendingOf(fs) && Grouping(perPort, fs)
  {
    problems, pending, perPort := [], [], map[];
    ghost var fs: seq<Finding> := [];
    for i := 0 to |sorted|
      invariant fs == ExamineAll(q, accepted, sorted[..i])
      invariant problems == ProblemsOf(fs) && pending == PendingOf(fs) && Grouping(perPort, fs)
    {
      problems, pending, perPort := ExamineOne(q, sorted[i], accepted, problems, pending, perPort, fs);
      FlatMapTakeOne(sorted, i, Examiner(q, accepted));
      fs := fs + Examine(q, accepted, sorted[i]);
    }
    TakeAll(sorted);
  }

  /** `sorted(per_port)`. */
  method SortedPorts(perPort: map<string, seq<Entry>>, ghost fs: seq<Finding>) returns (ports: seq<string>)
    requires Grouping(perPort, fs)
    ensures ports == UsedPorts(fs)
  {
    ports := [];
    var rest := perPort.Keys;
    while rest != {}
      invariant rest <= perPort.Keys
      invariant StrictlySorted(ports, ByText)
      invariant forall port :: port in ports <==> port in perPort.Keys - rest
      decreases rest
    {
      var port :| port in rest;
      AddTextStrict(port, ports);
      ports := AddText(port, ports);
      rest := rest - {port};
    }
    SortedSetStrict(Collect(fs, PortIn));
    forall port ensures port in ports <==> port in UsedPorts(fs) {
      UsedPortIff(fs, port);
    }
    StrictDetermined(ports, UsedPorts(fs));
  }

  /** The body of the port loop. */
  method SettleOne(q: Question, port: string, perPort: map<string, seq<Entry>>, ghost fs: seq<Finding>)
    returns (outcome: Result<seq<Binding>, Problem>)
    requires WellFound(q, fs) && Grouping(perPort, fs) && port in UsedPorts(fs)
    ensures outcome == PortOutcome(q, fs, port)
  {
    UsedPortIff(fs, port);
    assert port in perPort;
    EntryOrigin(fs, port, perPort[port][0]);
    var spec := PortOf(q.consumer.inputPorts, port).value;
    outcome := Settle(q, spec, perPort[port]);
  }

  /** The port loop. */
  method SettlePorts(q: Question, ports: seq<string>, perPort: map<string, seq<Entry>>, ghost fs: seq<Finding>)
    returns (bindings: seq<Binding>, refused: seq<Problem>)
    requires WellFound(q, fs) && Grouping(perPort, fs) && ports == UsedPorts(fs)
    ensures bindings == AllBindings(q, fs) && refused == PortRefusals(q, fs)
  {
    bindings, refused := [], [];
    ghost var (bound, refusal) := (BindingsFor(q, fs), RefusalFor(q, fs));
    for i := 0 to |ports|
      invariant bindings == FlatMap(ports[..i], bound)
      invariant refused == Collect(ports[..i], refusal)
    {
      var outcome := SettleOne(q, ports[i], perPort, fs);
      FlatMapTakeOne(ports, i, bound);
      CollectTakeOne(ports, i, refusal);
      match outcome {
        case Failure(problem) => refused := refused + [problem];
        case Success(more) => bindings := bindings + more;
      }
    }
    TakeAll(ports);
  }

  /** The loop over the declared ports that reports the required ones left without an input. */
  method UnboundPorts(q: Question, bound: set<string>, waiting: set<string>, failed: set<Option<string>>)
    returns (unbound: seq<Problem>)
    ensures unbound == Collect(q.consumer.inputPorts, UnboundPort(q, bound, waiting, failed))
  {
    unbound := [];
    var specs := q.consumer.inputPorts;
    for i := 0 to |specs|
      invariant unbound == Collect(specs[..i], UnboundPort(q, bound, waiting, failed))
    {
      var spec := specs[i];
      CollectTakeOne(specs, i, UnboundPort(q, bound, waiting, failed));
      if !(!spec.required || spec.portKey in bound || spec.portKey in waiting) && Some(spec.portKey) !in failed {
        unbound := unbound + [Complain(q, UnboundRequiredPort, NothingBound(spec.portKey, q.consumer.taskId),
                                       spec.portKey, [], [])];
      }
    }
    assert specs[..|specs|] == specs;
  }

  /** `resolve_declared_inputs`. */
  method ResolveDeclaredInputs(q: Question, requirements: seq<DataRequirement>, accepted: AcceptedIndex)
    returns (res: Resolution)
    ensures res == Resolve(q, requirements, accepted)
  {
    var sorted := Sort(requirements, ById);
    ghost var fs := ExamineAll(q, accepted, sorted);
    ExamineAllWellFound(q, accepted, sorted);
    var problems, pending, perPort := ExamineRequirements(q, sorted, accepted);
    var ports := SortedPorts(perPort, fs);
    var bindings, refused := SettlePorts(q, ports, perPort, fs);
    problems := problems + refused;
    var bound, waiting, failed := BoundPorts(bindings), PendingPorts(pending), FailedPorts(problems);
    var unbound := UnboundPorts(q, bound, waiting, failed);
    var ordered := Sort(problems + unbound, BySeverity);
    if Blocking(ordered) {
      return Answer(None, ordered);
    }
    var manifest := NewManifest(q.consumer.taskId, bindings, pending);
    if manifest.None? {
      return Raised;
    }
    return Answer(manifest, ordered);
  }
}
