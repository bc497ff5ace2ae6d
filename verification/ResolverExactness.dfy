/** When resolution returns a manifest, and exactly what is in it.

    The statement uses only the inputs: which requirements are addressed, which accepted outputs
    the revision policy leaves, and which of those are permitted. Loops, sorting and grouping do
    not appear in it.
 */
module ResolverExactness {
  import opened InputModel
  import opened Ordering
  import opened Sequences
  import opened Resolution
  import opened ResolutionFacts

  // --------------------------------------------------------------------- what is asked for

  /** The requirement feeds this consumer, at a port it declares. */
  predicate Addressed(q: Question, r: DataRequirement) {
    r.consumerOccurrence == q.occurrence && PortOf(q.consumer.inputPorts, r.inputPort).Some?
  }

  predicate Ready(q: Question, accepted: AcceptedIndex, r: DataRequirement) {
    Addressed(q, r) && r.producerOccurrence in accepted.completed
  }

  /** The requirement follows authorised revisions, and one is authorised at its place. */
  predicate Authorised(accepted: AcceptedIndex, r: DataRequirement) {
    r.revisionPolicy.FollowAuthorized? && (r.producerOccurrence, r.outputPort) in accepted.authorized
  }

  /** The revision policy leaves this revision: the authorised one where the requirement follows one, otherwise
      the pinned one, otherwise any. */
  predicate MayTake(policy: Policy, accepted: AcceptedIndex, r: DataRequirement, revision: string) {
    && (Authorised(accepted, r) ==> revision == accepted.authorized[(r.producerOccurrence, r.outputPort)])
    && (!Authorised(accepted, r) && r.requirementId in policy.pinned ==> revision == policy.pinned[r.requirementId])
  }

  /** The policy leaves one revision only. */
  predicate RevisionFixed(policy: Policy, accepted: AcceptedIndex, r: DataRequirement) {
    Authorised(accepted, r) || r.requirementId in policy.pinned
  }

  function OfferedTo(q: Question, accepted: AcceptedIndex, r: DataRequirement): AcceptedOutput -> bool {
    (c: AcceptedOutput) =>
      && c.producerOccurrence == r.producerOccurrence && c.outputPort == r.outputPort
      && MayTake(q.policy, accepted, r, c.sourceRevision)
  }

  /** The accepted outputs that the revision policy leaves for a requirement. */
  function Offers(q: Question, accepted: AcceptedIndex, r: DataRequirement): seq<AcceptedOutput> {
    Filter(accepted.outputs, OfferedTo(q, accepted, r))
  }

  /** Exact schema identity, or a registered declaration. */
  predicate SchemaDeclared(q: Question, r: DataRequirement, spec: PortSpec, c: AcceptedOutput) {
    && r.schemaRef == spec.schemaRef
    && (|| c.schemaRef == r.schemaRef
        || exists rule :: rule in q.policy.schemaRules && rule.produced == c.schemaRef && rule.required == r.schemaRef)
  }

  /** A witness for this purpose, this consumer and this support, usable now. */
  predicate WitnessLicenses(q: Question, c: AcceptedOutput) {
    if c.acceptanceId !in q.witnesses then !q.policy.requireWitness
    else
      var w := q.witnesses[c.acceptanceId];
      && w.purpose in q.policy.purposes
      && w.consumerIsTask && w.consumerId == q.consumer.taskId
      && w.supportRevision == c.supportRevision
      && w.decision == Usable
      && InForce(q.policy, w)
  }

  /** Taken at the epoch its scope is at now, or at any epoch where unknown scopes are allowed and its own is
      unknown; before its deadline; and not withdrawn or stale. */
  predicate InForce(policy: Policy, w: Witness) {
    && (if w.scopeId in policy.scopeEpochs then w.scopeEpoch == policy.scopeEpochs[w.scopeId]
        else policy.allowUnknownScope)
    && (w.notAfterMs.Some? ==> policy.nowMs < w.notAfterMs.value)
    && w.freshness == Current
  }

  predicate Permitted(q: Question, r: DataRequirement, spec: PortSpec, c: AcceptedOutput) {
    && c.disclosure == Disclosable
    && SchemaDeclared(q, r, spec, c)
    && (c.provisional ==> r.inputPort in q.policy.provisionalPorts)
    && WitnessLicenses(q, c)
  }

  /** The entry for a permitted pair: its converter and its witness. */
  function EntryFor(q: Question, r: DataRequirement, c: AcceptedOutput): Entry {
    var rule := MatchRule(q.policy.schemaRules, c.schemaRef, r.schemaRef);
    Entry(r, c,
          if c.schemaRef == r.schemaRef || rule.None? then None else rule.value.converter,
          if c.acceptanceId in q.witnesses then Some(q.witnesses[c.acceptanceId].witnessId) else None)
  }

  function EntryMaker(q: Question, r: DataRequirement): AcceptedOutput -> Entry {
    (c: AcceptedOutput) => EntryFor(q, r, c)
  }

  function Pairing(q: Question, accepted: AcceptedIndex): DataRequirement -> seq<Entry> {
    (r: DataRequirement) => if Ready(q, accepted, r) then Map(Offers(q, accepted, r), EntryMaker(q, r)) else []
  }

  /** Every pair of a ready requirement and an output the revision policy leaves for it. */
  function Pairs(q: Question, rs: seq<DataRequirement>, accepted: AcceptedIndex): seq<Entry> {
    FlatMap(rs, Pairing(q, accepted))
  }

  function FeedsPort(port: string): Entry -> bool {
    (e: Entry) => e.requirement.inputPort == port
  }

  function PairsAt(q: Question, rs: seq<DataRequirement>, accepted: AcceptedIndex, port: string): seq<Entry> {
    Filter(Pairs(q, rs, accepted), FeedsPort(port))
  }

  function Awaiting(q: Question, accepted: AcceptedIndex): DataRequirement -> Option<SymbolicBinding> {
    (r: DataRequirement) =>
      if Addressed(q, r) && r.producerOccurrence !in accepted.completed
      then Some(SymbolicBinding(r.requirementId, r.producerOccurrence, r.outputPort, q.consumer.taskId, r.inputPort))
      else None
  }

  /** The promises whose producers have not finished. */
  function Awaited(q: Question, rs: seq<DataRequirement>, accepted: AcceptedIndex): seq<SymbolicBinding> {
    Collect(rs, Awaiting(q, accepted))
  }

  ghost predicate RequirementOk(q: Question, accepted: AcceptedIndex, r: DataRequirement) {
    && Addressed(q, r)
    && (r.producerOccurrence in accepted.completed ==>
          && (RevisionFixed(q.policy, accepted, r) ==> Offers(q, accepted, r) != [])
          && forall c :: c in Offers(q, accepted, r) ==>
               Permitted(q, r, PortOf(q.consumer.inputPorts, r.inputPort).value, c))
  }

  ghost predicate PortsSettle(q: Question, rs: seq<DataRequirement>, accepted: AcceptedIndex) {
    forall port :: PortOf(q.consumer.inputPorts, port).Some? ==>
      Settleable(q, PortOf(q.consumer.inputPorts, port).value, PairsAt(q, rs, accepted, port))
  }

  ghost predicate PortsCovered(q: Question, rs: seq<DataRequirement>, accepted: AcceptedIndex) {
    forall spec :: spec in q.consumer.inputPorts && spec.required ==>
      PairsAt(q, rs, accepted, spec.portKey) != [] || spec.portKey in PendingPorts(Awaited(q, rs, accepted))
  }

  /** Nothing other than an unfinished producer stands in the way. */
  ghost predicate Admissible(q: Question, rs: seq<DataRequirement>, accepted: AcceptedIndex) {
    && (forall r :: r in rs ==> RequirementOk(q, accepted, r))
    && PortsSettle(q, rs, accepted)
    && PortsCovered(q, rs, accepted)
  }

  // ------------------------------------------------------------------- one requirement exactly

  lemma SelectedAreOffers(q: Question, accepted: AcceptedIndex, r: DataRequirement)
    ensures Filter(At(accepted, r.producerOccurrence, r.outputPort), AtRevision(Target(q.policy, accepted, r)))
         == Sort(Offers(q, accepted, r), ByRevision)
  {
    var p := AtPort(r.producerOccurrence, r.outputPort);
    var p' := AtRevision(Target(q.policy, accepted, r));
    SortFilter(Filter(accepted.outputs, p), ByRevision, p');
    FilterFilter(accepted.outputs, p, p', OfferedTo(q, accepted, r));
  }

  lemma {:induction false} MatchRuleIff(rules: seq<SchemaRule>, produced: VersionedRef, required: VersionedRef)
    ensures MatchRule(rules, produced, required).Some? <==>
              exists rule :: rule in rules && rule.produced == produced && rule.required == required
  {
    if rules != [] {
      MatchRuleIff(rules[1..], produced, required);
      assert rules == [rules[0]] + rules[1..];
    }
  }

  /** The candidate checks, in whatever order the code makes them, amount to permission. */
  lemma WeighExact(q: Question, r: DataRequirement, spec: PortSpec, c: AcceptedOutput)
    ensures Permitted(q, r, spec, c) ==> Weigh(q, r, spec, c) == Licensed(EntryFor(q, r, c))
    ensures !Permitted(q, r, spec, c) ==> Weigh(q, r, spec, c).Refused?
  {
    MatchRuleIff(q.policy.schemaRules, c.schemaRef, r.schemaRef);
    assert CheckSchema(q, r, spec, c).Success? <==> SchemaDeclared(q, r, spec, c);
    assert CheckWitness(q, r, c).Success? <==> WitnessLicenses(q, c);
  }

  function EntryIn(f: Finding): Option<Entry> { if f.Licensed? then Some(f.entry) else None }

  ghost predicate NoRefusal(fs: seq<Finding>) {
    forall f :: f in fs ==> !f.Refused?
  }

  /** Weighing the candidates, when all are permitted, gives exactly their entries. */
  lemma {:induction false} WeighAllExact(q: Question, r: DataRequirement, spec: PortSpec, cs: seq<AcceptedOutput>)
    requires forall c :: c in cs ==> Permitted(q, r, spec, c)
    ensures NoRefusal(Map(cs, Weigher(q, r, spec)))
    ensures Collect(Map(cs, Weigher(q, r, spec)), EntryIn) == Map(cs, EntryMaker(q, r))
    ensures Collect(Map(cs, Weigher(q, r, spec)), PendingIn) == []
  {
    if cs != [] {
      WeighAllExact(q, r, spec, cs[1..]);
      WeighExact(q, r, spec, cs[0]);
      var fs := Map(cs, Weigher(q, r, spec));
      assert fs[1..] == Map(cs[1..], Weigher(q, r, spec));
      assert fs[0] == Licensed(EntryFor(q, r, cs[0]));
      forall f | f in fs ensures !f.Refused? {
        assert f == fs[0] || f in fs[1..];
      }
    }
  }

  lemma ExamineExact(q: Question, accepted: AcceptedIndex, r: DataRequirement)
    ensures NoRefusal(Examine(q, accepted, r)) <==> RequirementOk(q, accepted, r)
    ensures RequirementOk(q, accepted, r) ==>
              && SameElements(Collect(Examine(q, accepted, r), EntryIn), Pairing(q, accepted)(r))
              && Collect(Examine(q, accepted, r), PendingIn) == Collect([r], Awaiting(q, accepted))
  {
    var fs := Examine(q, accepted, r);
    if !Addressed(q, r) || r.producerOccurrence !in accepted.completed {
      assert fs[0] in fs && fs[1..] == [];
    } else {
      ReadyExact(q, accepted, r);
    }
  }

  lemma PermittedIff(q: Question, r: DataRequirement, spec: PortSpec, cs: seq<AcceptedOutput>)
    ensures NoRefusal(Map(cs, Weigher(q, r, spec))) <==> forall c :: c in cs ==> Permitted(q, r, spec, c)
  {
    if forall c :: c in cs ==> Permitted(q, r, spec, c) {
      WeighAllExact(q, r, spec, cs);
    } else {
      var i :| 0 <= i < |cs| && !Permitted(q, r, spec, cs[i]);
      WeighExact(q, r, spec, cs[i]);
      assert Map(cs, Weigher(q, r, spec))[i].Refused?;
    }
  }

  /** A ready requirement is examined on exactly the outputs offered to it, in revision order. */
  lemma ReadyShape(q: Question, accepted: AcceptedIndex, r: DataRequirement)
    requires Ready(q, accepted, r)
    ensures var cs := Sort(Offers(q, accepted, r), ByRevision);
      if RevisionFixed(q.policy, accepted, r) && cs == [] then !NoRefusal(Examine(q, accepted, r))
      else Examine(q, accepted, r) == Map(cs, Weigher(q, r, PortOf(q.consumer.inputPorts, r.inputPort).value))
  {
    SelectedAreOffers(q, accepted, r);
    if SelectByRevision(q, accepted, r).Failure? {
      assert Examine(q, accepted, r)[0].Refused?;
    }
  }

  lemma ReadyExact(q: Question, accepted: AcceptedIndex, r: DataRequirement)
    requires Ready(q, accepted, r)
    ensures NoRefusal(Examine(q, accepted, r)) <==> RequirementOk(q, accepted, r)
    ensures RequirementOk(q, accepted, r) ==>
              && SameElements(Collect(Examine(q, accepted, r), EntryIn), Pairing(q, accepted)(r))
              && Collect(Examine(q, accepted, r), PendingIn) == Collect([r], Awaiting(q, accepted))
  {
    var spec := PortOf(q.consumer.inputPorts, r.inputPort).value;
    var offers := Offers(q, accepted, r);
    var cs := Sort(offers, ByRevision);
    ReadyShape(q, accepted, r);
    SortElements(offers, ByRevision);
    SameMembers(offers, cs);
    PermittedIff(q, r, spec, cs);
    if RequirementOk(q, accepted, r) {
      WeighAllExact(q, r, spec, cs);
      MapReorder(offers, cs, EntryMaker(q, r));
    }
  }

  // ---------------------------------------------------------------------- all requirements

  lemma FindingsExact(q: Question, accepted: AcceptedIndex, rs: seq<DataRequirement>)
    ensures NoRefusal(ExamineAll(q, accepted, rs)) <==> forall r :: r in rs ==> RequirementOk(q, accepted, r)
  {
    var fs := ExamineAll(q, accepted, rs);
    forall r | r in rs ensures NoRefusal(fs) ==> RequirementOk(q, accepted, r) {
      ExamineExact(q, accepted, r);
      forall f | f in Examine(q, accepted, r) ensures f in fs {
        FindingOrigin(q, accepted, rs, f);
      }
    }
    forall f | f in fs && forall r :: r in rs ==> RequirementOk(q, accepted, r)
      ensures !f.Refused?
    {
      FindingOrigin(q, accepted, rs, f);
      var r :| r in rs && f in Examine(q, accepted, r);
      ExamineExact(q, accepted, r);
    }
  }

  lemma {:induction false} FindingsElements(q: Question, accepted: AcceptedIndex, rs: seq<DataRequirement>)
    requires forall r :: r in rs ==> RequirementOk(q, accepted, r)
    ensures SameElements(Collect(ExamineAll(q, accepted, rs), EntryIn), Pairs(q, rs, accepted))
    ensures PendingOf(ExamineAll(q, accepted, rs)) == Awaited(q, rs, accepted)
  {
    if rs != [] {
      FindingsElements(q, accepted, rs[1..]);
      ExamineExact(q, accepted, rs[0]);
      var (first, rest) := (Examine(q, accepted, rs[0]), ExamineAll(q, accepted, rs[1..]));
      CollectConcat(first, rest, EntryIn);
      CollectConcat(first, rest, PendingIn);
      CollectConcat([rs[0]], rs[1..], Awaiting(q, accepted));
      assert rs == [rs[0]] + rs[1..];
    }
  }

  lemma {:induction false} EntriesAtFilter(fs: seq<Finding>, port: string)
    ensures EntriesAt(fs, port) == Filter(Collect(fs, EntryIn), FeedsPort(port))
  {
    if fs != [] {
      EntriesAtFilter(fs[1..], port);
      if fs[0].Licensed? {
        assert Collect(fs, EntryIn)[1..] == Collect(fs[1..], EntryIn);
      }
    }
  }

  // ------------------------------------------------------------------------ the conclusion

  ghost predicate PortsSucceed(q: Question, fs: seq<Finding>) {
    forall port :: port in UsedPorts(fs) ==> PortOutcome(q, fs, port).Success?
  }

  ghost predicate RequiredPortsUsed(q: Question, fs: seq<Finding>) {
    forall spec :: spec in q.consumer.inputPorts && spec.required ==>
      spec.portKey in UsedPorts(fs) || spec.portKey in PendingPorts(PendingOf(fs))
  }

  lemma PortBindings(q: Question, fs: seq<Finding>, port: string)
    requires WellFound(q, fs) && port in UsedPorts(fs) && PortOutcome(q, fs, port).Success?
    ensures Map(BindingsFor(q, fs)(port), Unranked) == Map(EntriesAt(fs, port), AtZero(q))
    ensures BindingsFor(q, fs)(port) != []
    ensures forall b :: b in BindingsFor(q, fs)(port) ==> b.inputPort == port
  {
    var es := EntriesAt(fs, port);
    UsedPortIff(fs, port);
    EntryOrigin(fs, port, es[0]);
    var spec := PortOf(q.consumer.inputPorts, port).value;
    SettledBindings(q, spec, es);
    var bs := BindingsFor(q, fs)(port);
    forall i | 0 <= i < |bs|
      ensures bs[i].inputPort == port && Unranked(bs[i]) == AtZero(q)(es[i])
    {
      EntryOrigin(fs, port, es[i]);
      assert bs[i] == MakeBinding(q, es[i], bs[i].portOrdinal);
    }
  }

  function Unranked(b: Binding): Binding { b.(portOrdinal := 0) }

  function AtZero(q: Question): Entry -> Binding { (e: Entry) => MakeBinding(q, e, 0) }

  lemma BoundPortIff(q: Question, fs: seq<Finding>, port: string)
    requires WellFound(q, fs) && PortsSucceed(q, fs)
    ensures port in BoundPorts(AllBindings(q, fs)) <==> port in UsedPorts(fs)
  {
    if port in BoundPorts(AllBindings(q, fs)) {
      var b :| b in AllBindings(q, fs) && b.inputPort == port;
      FlatMapMember(UsedPorts(fs), BindingsFor(q, fs), b);
      var p :| p in UsedPorts(fs) && b in BindingsFor(q, fs)(p);
      PortBindings(q, fs, p);
    }
    if port in UsedPorts(fs) {
      PortBindings(q, fs, port);
      var b := BindingsFor(q, fs)(port)[0];
      assert b in BindingsFor(q, fs)(port);
      FlatMapMember(UsedPorts(fs), BindingsFor(q, fs), b);
    }
  }

  lemma PendingExplains(q: Question, fs: seq<Finding>, port: string)
    requires WellFound(q, fs) && NoRefusal(fs)
    ensures Some(port) in FailedPorts(ProblemsOf(fs)) ==> port in PendingPorts(PendingOf(fs))
    ensures forall p :: p in ProblemsOf(fs) ==> p.kind == PendingProducer
  {
    forall p | p in ProblemsOf(fs)
      ensures p.kind == PendingProducer && (p.inputPort == Some(port) ==> port in PendingPorts(PendingOf(fs)))
    {
      CollectMember(fs, ProblemIn, p);
      var f :| f in fs && ProblemIn(f) == Some(p);
      CollectMember(fs, PendingIn, f.symbolic);
      assert PendingIn(f) == Some(f.symbolic);
    }
  }

  /** The three sources of blocking refusals. */
  lemma BlockingIff(q: Question, fs: seq<Finding>)
    requires WellFound(q, fs)
    ensures Blocking(Sort(AllProblems(q, fs), BySeverity)) <==>
              !(NoRefusal(fs) && PortsSucceed(q, fs) && RequiredPortsUsed(q, fs))
  {
    SortMembers(AllProblems(q, fs), BySeverity);
    if !NoRefusal(fs) {
      var f :| f in fs && f.Refused?;
      CollectMember(fs, ProblemIn, f.problem);
      assert ProblemIn(f) == Some(f.problem) && f.problem in AllProblems(q, fs);
    } else if !PortsSucceed(q, fs) {
      var port :| port in UsedPorts(fs) && PortOutcome(q, fs, port).Failure?;
      RefusedPort(q, fs, port);
    } else {
      NoPortRefusals(q, fs);
      UnboundIff(q, fs);
    }
  }

  lemma RefusedPort(q: Question, fs: seq<Finding>, port: string)
    requires port in UsedPorts(fs) && PortOutcome(q, fs, port).Failure?
    ensures exists p :: p in AllProblems(q, fs) && p.kind != PendingProducer
  {
    var p := PortOutcome(q, fs, port).error;
    UsedPortIff(fs, port);
    SettledIff(q, PortOf(q.consumer.inputPorts, port).value, EntriesAt(fs, port));
    assert RefusalFor(q, fs)(port) == Some(p);
    CollectMember(UsedPorts(fs), RefusalFor(q, fs), p);
    assert p in AllProblems(q, fs);
  }

  lemma NoPortRefusals(q: Question, fs: seq<Finding>)
    requires PortsSucceed(q, fs)
    ensures PortRefusals(q, fs) == []
  {
    if PortRefusals(q, fs) != [] {
      var p := PortRefusals(q, fs)[0];
      CollectMember(UsedPorts(fs), RefusalFor(q, fs), p);
    }
  }

  lemma UnboundIff(q: Question, fs: seq<Finding>)
    requires WellFound(q, fs) && NoRefusal(fs) && PortsSucceed(q, fs) && PortRefusals(q, fs) == []
    ensures (exists p :: p in AllProblems(q, fs) && p.kind != PendingProducer) <==> !RequiredPortsUsed(q, fs)
  {
    var problems := ProblemsOf(fs) + PortRefusals(q, fs);
    assert problems == ProblemsOf(fs);
    var complaint :=
      UnboundPort(q, BoundPorts(AllBindings(q, fs)), PendingPorts(PendingOf(fs)), FailedPorts(problems));
    PendingExplains(q, fs, "");
    if p :| p in AllProblems(q, fs) && p.kind != PendingProducer {
      assert p in Collect(q.consumer.inputPorts, complaint);
      CollectMember(q.consumer.inputPorts, complaint, p);
      var spec :| spec in q.consumer.inputPorts && complaint(spec) == Some(p);
      BoundPortIff(q, fs, spec.portKey);
    }
    if !RequiredPortsUsed(q, fs) {
      var spec :| spec in q.consumer.inputPorts && spec.required
                  && spec.portKey !in UsedPorts(fs) && spec.portKey !in PendingPorts(PendingOf(fs));
      BoundPortIff(q, fs, spec.portKey);
      PendingExplains(q, fs, spec.portKey);
      var p := complaint(spec).value;
      CollectMember(q.consumer.inputPorts, complaint, p);
      assert p in AllProblems(q, fs) && p.kind != PendingProducer;
    }
  }

  // ------------------------------------------------------------- one binding for each pair

  function GroupOf(es: seq<Entry>): string -> seq<Entry> {
    (port: string) => Filter(es, FeedsPort(port))
  }

  function InPorts(ports: seq<string>): Entry -> bool {
    (e: Entry) => e.requirement.inputPort in ports
  }

  /** Grouping by port neither loses nor repeats an entry. */
  lemma {:induction false} Grouped(es: seq<Entry>, ports: seq<string>)
    requires Distinct(ports)
    ensures SameElements(FlatMap(ports, GroupOf(es)), Filter(es, InPorts(ports)))
  {
    if ports == [] {
      if Filter(es, InPorts(ports)) != [] {
        FilterMember(es, InPorts(ports), Filter(es, InPorts(ports))[0]);
      }
    } else {
      Grouped(es, ports[1..]);
      assert ports[0] !in ports[1..];
      assert ports == [ports[0]] + ports[1..];
      FilterSplit(es, FeedsPort(ports[0]), InPorts(ports[1..]), InPorts(ports));
    }
  }

  lemma {:induction false} MapOverGroups(q: Question, fs: seq<Finding>, ports: seq<string>)
    requires WellFound(q, fs)
    requires forall port :: port in ports ==> port in UsedPorts(fs) && PortOutcome(q, fs, port).Success?
    ensures Map(FlatMap(ports, BindingsFor(q, fs)), Unranked)
         == Map(FlatMap(ports, GroupOf(Collect(fs, EntryIn))), AtZero(q))
  {
    if ports != [] {
      MapOverGroups(q, fs, ports[1..]);
      PortBindings(q, fs, ports[0]);
      EntriesAtFilter(fs, ports[0]);
      MapConcat(BindingsFor(q, fs)(ports[0]), FlatMap(ports[1..], BindingsFor(q, fs)), Unranked);
      MapConcat(EntriesAt(fs, ports[0]), FlatMap(ports[1..], GroupOf(Collect(fs, EntryIn))), AtZero(q));
    }
  }

  lemma BindingsExact(q: Question, fs: seq<Finding>)
    requires WellFound(q, fs) && PortsSucceed(q, fs)
    ensures SameElements(Map(AllBindings(q, fs), Unranked), Map(Collect(fs, EntryIn), AtZero(q)))
  {
    var (es, ports) := (Collect(fs, EntryIn), UsedPorts(fs));
    SortedSetDistinct(Collect(fs, PortIn));
    Grouped(es, ports);
    forall e | e in es ensures InPorts(ports)(e) {
      CollectMember(fs, EntryIn, e);
      var f :| f in fs && EntryIn(f) == Some(e);
      CollectMember(fs, PortIn, e.requirement.inputPort);
      assert PortIn(f) == Some(e.requirement.inputPort);
      SortedSetStrict(Collect(fs, PortIn));
    }
    FilterAll(es, InPorts(ports));
    MapOverGroups(q, fs, ports);
    MapReorder(FlatMap(ports, GroupOf(es)), es, AtZero(q));
  }

  // ------------------------------------------------------------------------- the theorem

  /** The findings that `Resolve` concludes from. */
  function FindingsOf(q: Question, rs: seq<DataRequirement>, accepted: AcceptedIndex): seq<Finding> {
    ExamineAll(q, accepted, Sort(rs, ById))
  }

  lemma FindingsOfExact(q: Question, rs: seq<DataRequirement>, accepted: AcceptedIndex)
    ensures WellFound(q, FindingsOf(q, rs, accepted))
    ensures NoRefusal(FindingsOf(q, rs, accepted)) <==> forall r :: r in rs ==> RequirementOk(q, accepted, r)
    ensures NoRefusal(FindingsOf(q, rs, accepted)) ==>
              && SameElements(Collect(FindingsOf(q, rs, accepted), EntryIn), Pairs(q, rs, accepted))
              && SameElements(PendingOf(FindingsOf(q, rs, accepted)), Awaited(q, rs, accepted))
  {
    var sorted := Sort(rs, ById);
    SortElements(rs, ById);
    SortMembers(rs, ById);
    ExamineAllWellFound(q, accepted, sorted);
    FindingsExact(q, accepted, sorted);
    if NoRefusal(FindingsOf(q, rs, accepted)) {
      FindingsElements(q, accepted, sorted);
      FlatMapReorder(sorted, rs, Pairing(q, accepted));
      CollectReorder(sorted, rs, Awaiting(q, accepted));
    }
  }

  lemma EntriesAtPairs(q: Question, rs: seq<DataRequirement>, accepted: AcceptedIndex, port: string)
    requires NoRefusal(FindingsOf(q, rs, accepted))
    ensures SameElements(EntriesAt(FindingsOf(q, rs, accepted), port), PairsAt(q, rs, accepted, port))
    ensures port in UsedPorts(FindingsOf(q, rs, accepted)) <==> PairsAt(q, rs, accepted, port) != []
  {
    var fs := FindingsOf(q, rs, accepted);
    FindingsOfExact(q, rs, accepted);
    EntriesAtFilter(fs, port);
    FilterReorder(Collect(fs, EntryIn), Pairs(q, rs, accepted), FeedsPort(port));
    SameMembers(EntriesAt(fs, port), PairsAt(q, rs, accepted, port));
    UsedPortIff(fs, port);
  }

  lemma PortsSettleIff(q: Question, rs: seq<DataRequirement>, accepted: AcceptedIndex)
    requires NoRefusal(FindingsOf(q, rs, accepted))
    ensures PortsSucceed(q, FindingsOf(q, rs, accepted)) <==> PortsSettle(q, rs, accepted)
  {
    var fs := FindingsOf(q, rs, accepted);
    FindingsOfExact(q, rs, accepted);
    forall port | PortOf(q.consumer.inputPorts, port).Some?
      ensures (port in UsedPorts(fs) ==> PortOutcome(q, fs, port).Success?) <==>
              Settleable(q, PortOf(q.consumer.inputPorts, port).value, PairsAt(q, rs, accepted, port))
    {
      var spec := PortOf(q.consumer.inputPorts, port).value;
      EntriesAtPairs(q, rs, accepted, port);
      UsedPortIff(fs, port);
      if port in UsedPorts(fs) {
        var (es, pairs) := (EntriesAt(fs, port), PairsAt(q, rs, accepted, port));
        SettledIff(q, spec, es);
        if Settleable(q, spec, es) { SettleableReorder(q, spec, es, pairs); }
        if Settleable(q, spec, pairs) { SettleableReorder(q, spec, pairs, es); }
      }
    }
  }

  lemma PortsCoveredIff(q: Question, rs: seq<DataRequirement>, accepted: AcceptedIndex)
    requires NoRefusal(FindingsOf(q, rs, accepted))
    ensures RequiredPortsUsed(q, FindingsOf(q, rs, accepted)) <==> PortsCovered(q, rs, accepted)
  {
    FindingsOfExact(q, rs, accepted);
    SameMembers(PendingOf(FindingsOf(q, rs, accepted)), Awaited(q, rs, accepted));
    assert PendingPorts(PendingOf(FindingsOf(q, rs, accepted))) == PendingPorts(Awaited(q, rs, accepted));
    forall port ensures port in UsedPorts(FindingsOf(q, rs, accepted)) <==> PairsAt(q, rs, accepted, port) != [] {
      EntriesAtPairs(q, rs, accepted, port);
    }
  }

  lemma AdmissibleIff(q: Question, rs: seq<DataRequirement>, accepted: AcceptedIndex)
    ensures Admissible(q, rs, accepted) <==>
              !Blocking(Sort(AllProblems(q, FindingsOf(q, rs, accepted)), BySeverity))
  {
    FindingsOfExact(q, rs, accepted);
    BlockingIff(q, FindingsOf(q, rs, accepted));
    if NoRefusal(FindingsOf(q, rs, accepted)) {
      PortsSettleIff(q, rs, accepted);
      PortsCoveredIff(q, rs, accepted);
    }
  }

  function PairId(q: Question): Entry -> string { (e: Entry) => MakeBinding(q, e, 0).bindingId }

  ghost predicate HasManifest(res: Resolution) { res.Answer? && res.manifest.Some? }

  /** Resolver exactness. A manifest is returned, unless two bindings would share an id, exactly
      when nothing but unfinished producers stands in the way; its bindings, their ordinals aside,
      are then the images of the admissible pairs, each once, and its pending records those of the
      unfinished requirements. */
  lemma ResolverExact(q: Question, rs: seq<DataRequirement>, accepted: AcceptedIndex)
    ensures var res := Resolve(q, rs, accepted);
      && (Admissible(q, rs, accepted) <==> res.Raised? || HasManifest(res))
      && (res.Raised? <==> Admissible(q, rs, accepted) && Repeats(Map(Pairs(q, rs, accepted), PairId(q))))
      && (HasManifest(res) ==>
            && res.manifest.value.consumerTaskRef == q.consumer.taskId
            && SameElements(Map(res.manifest.value.bindings, Unranked), Map(Pairs(q, rs, accepted), AtZero(q)))
            && SameElements(res.manifest.value.pending, Awaited(q, rs, accepted)))
  {
    var fs := FindingsOf(q, rs, accepted);
    AdmissibleIff(q, rs, accepted);
    FindingsOfExact(q, rs, accepted);
    if Admissible(q, rs, accepted) {
      BlockingIff(q, fs);
      BindingsExact(q, fs);
      var (bs, pairs) := (AllBindings(q, fs), Pairs(q, rs, accepted));
      MapReorder(Collect(fs, EntryIn), pairs, AtZero(q));
      SortElements(bs, ByPlace);
      MapReorder(Sort(bs, ByPlace), bs, Unranked);
      SameIds(q, Sort(bs, ByPlace), pairs);
      SortElements(PendingOf(fs), ByPending);
    }
  }

  lemma SameIds(q: Question, bs: seq<Binding>, pairs: seq<Entry>)
    requires SameElements(Map(bs, Unranked), Map(pairs, AtZero(q)))
    ensures Repeats(Map(bs, BindingIdOf)) <==> Repeats(Map(pairs, PairId(q)))
  {
    MapReorder(Map(bs, Unranked), Map(pairs, AtZero(q)), BindingIdOf);
    assert Map(Map(bs, Unranked), BindingIdOf) == Map(bs, BindingIdOf);
    assert Map(Map(pairs, AtZero(q)), BindingIdOf) == Map(pairs, PairId(q));
    RepeatsReorder(Map(bs, BindingIdOf), Map(pairs, PairId(q)));
  }

  ghost predicate IsPair(q: Question, rs: seq<DataRequirement>, accepted: AcceptedIndex, r: DataRequirement,
                         c: AcceptedOutput)
  {
    r in rs && Ready(q, accepted, r) && c in Offers(q, accepted, r)
  }

  lemma PairOrigin(q: Question, rs: seq<DataRequirement>, accepted: AcceptedIndex, e: Entry)
    requires e in Pairs(q, rs, accepted)
    ensures IsPair(q, rs, accepted, e.requirement, e.candidate) && e == EntryFor(q, e.requirement, e.candidate)
  {
    FlatMapMember(rs, Pairing(q, accepted), e);
    var r :| r in rs && e in Pairing(q, accepted)(r);
    var k :| 0 <= k < |Offers(q, accepted, r)| && e == EntryMaker(q, r)(Offers(q, accepted, r)[k]);
  }

  lemma BindingOrigin(q: Question, bs: seq<Binding>, pairs: seq<Entry>, b: Binding) returns (e: Entry)
    requires SameElements(Map(bs, Unranked), Map(pairs, AtZero(q))) && b in bs
    ensures e in pairs && b == MakeBinding(q, e, b.portOrdinal)
  {
    SameMembers(Map(bs, Unranked), Map(pairs, AtZero(q)));
    var i :| 0 <= i < |bs| && bs[i] == b;
    assert Map(bs, Unranked)[i] in Map(pairs, AtZero(q));
    var j :| 0 <= j < |pairs| && Map(pairs, AtZero(q))[j] == Unranked(b);
    e := pairs[j];
    assert MakeBinding(q, e, 0) == Unranked(b);
  }

  /** Every binding of a returned manifest stands for one ready requirement and one accepted output
      that the revision policy left and that is permitted now. */
  lemma EveryBindingLicensed(q: Question, rs: seq<DataRequirement>, accepted: AcceptedIndex, b: Binding)
    requires HasManifest(Resolve(q, rs, accepted)) && b in Resolve(q, rs, accepted).manifest.value.bindings
    ensures exists r, c ::
      && IsPair(q, rs, accepted, r, c)
      && Permitted(q, r, PortOf(q.consumer.inputPorts, r.inputPort).value, c)
      && b == MakeBinding(q, EntryFor(q, r, c), b.portOrdinal)
  {
    ResolverExact(q, rs, accepted);
    var e := BindingOrigin(q, Resolve(q, rs, accepted).manifest.value.bindings, Pairs(q, rs, accepted), b);
    PairOrigin(q, rs, accepted, e);
    assert RequirementOk(q, accepted, e.requirement);
  }
}
