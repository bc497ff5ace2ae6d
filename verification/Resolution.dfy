/** `resolve_declared_inputs`: from declared requirements and accepted outputs to an input
    manifest or typed refusals.

    `Resolve` is the specification; the loops that the orchestrator runs are in `ResolverLoop`, where
    they are proved to compute it.
 */
module Resolution {
  import opened InputModel
  import opened Ordering
  import opened Sequences

  /** Everything a resolution depends on besides the requirements and the accepted outputs. */
  datatype Question = Question(
    consumer: Consumer, occurrence: string, witnesses: map<string, Witness>,
    policy: Policy, naming: Naming)

  datatype Entry = Entry(
    requirement: DataRequirement, candidate: AcceptedOutput,
    converter: Option<string>, witnessId: Option<string>)

  /** What examining one requirement, or one of its candidates, yields. */
  datatype Finding =
    | Refused(problem: Problem)
    | Waiting(symbolic: SymbolicBinding, problem: Problem)
    | Licensed(entry: Entry)

  datatype Resolution = Raised | Answer(manifest: Option<Manifest>, problems: seq<Problem>)

  // -------------------------------------------------------------------------- sort keys

  function ById(r: DataRequirement): Key { [Text(r.requirementId)] }

  function ByRevision(c: AcceptedOutput): Key { [Text(c.sourceRevision), Text(c.artifactId)] }

  function ByPlace(b: Binding): Key { [Text(b.inputPort), Num(b.portOrdinal), Text(b.bindingId)] }

  function ByPending(s: SymbolicBinding): Key { [Text(s.inputPort), Text(s.requirementId)] }

  function ByText(t: string): Key { [Text(t)] }

  function ByAtom(a: Atom): Key { [a] }

  function BySeverity(p: Problem): Key {
    [Text(KindText(p.kind)), Text(if p.inputPort.Some? then p.inputPort.value else ""), Text(p.detail)]
  }

  // ---------------------------------------------------------------------- the four checks

  /** `{spec.port_key: spec for spec in ports}.get(key)`: a later spec shadows an earlier one. */
  function PortOf(ports: seq<PortSpec>, key: string): Option<PortSpec> {
    if ports == [] then None
    else if ports[|ports| - 1].portKey == key then Some(ports[|ports| - 1])
    else PortOf(ports[..|ports| - 1], key)
  }

  function AtPort(occurrence: string, port: string): AcceptedOutput -> bool {
    (c: AcceptedOutput) => c.producerOccurrence == occurrence && c.outputPort == port
  }

  /** `AcceptedOutputsIndex.at`. */
  function At(accepted: AcceptedIndex, occurrence: string, port: string): seq<AcceptedOutput> {
    Sort(Filter(accepted.outputs, AtPort(occurrence, port)), ByRevision)
  }

  /** The revision that the source policy names, if any. */
  function Target(policy: Policy, accepted: AcceptedIndex, r: DataRequirement): Option<string> {
    var pin := if r.requirementId in policy.pinned then Some(policy.pinned[r.requirementId]) else None;
    var place := (r.producerOccurrence, r.outputPort);
    if r.revisionPolicy.Pinned? then pin
    else if place in accepted.authorized then Some(accepted.authorized[place])
    else pin
  }

  function AtRevision(target: Option<string>): AcceptedOutput -> bool {
    (c: AcceptedOutput) => target.None? || c.sourceRevision == target.value
  }

  function Complain(q: Question, kind: ProblemKind, message: Message, port: string, requirementIds: seq<string>,
                    candidates: seq<string>): Problem
  {
    Problem(kind, q.naming.wording(message), Some(port), requirementIds, candidates, [port])
  }

  /** `_select_by_revision`. */
  function SelectByRevision(q: Question, accepted: AcceptedIndex, r: DataRequirement)
    : Result<seq<AcceptedOutput>, Problem>
  {
    var target := Target(q.policy, accepted, r);
    var matching := Filter(At(accepted, r.producerOccurrence, r.outputPort), AtRevision(target));
    if target.Some? && matching == [] then
      Failure(Complain(q, RevisionNotAvailable, RevisionAbsent(target.value, r.producerOccurrence, r.outputPort),
                       r.inputPort, [r.requirementId], []))
    else Success(matching)
  }

  function MatchRule(rules: seq<SchemaRule>, produced: VersionedRef, required: VersionedRef): Option<SchemaRule> {
    if rules == [] then None
    else if rules[0].produced == produced && rules[0].required == required then Some(rules[0])
    else MatchRule(rules[1..], produced, required)
  }

  /** `_check_schema`: the converter to use, if any. Two schemas with one shape are not one schema. */
  function CheckSchema(q: Question, r: DataRequirement, spec: PortSpec, c: AcceptedOutput)
    : Result<Option<string>, Problem>
  {
    if r.schemaRef != spec.schemaRef then
      Failure(Complain(q, SchemaMismatch, PortSchemaDiffers(r.requirementId, r.schemaRef, spec.portKey, spec.schemaRef),
                       r.inputPort, [r.requirementId], []))
    else if c.schemaRef == r.schemaRef then Success(None)
    else
      match MatchRule(q.policy.schemaRules, c.schemaRef, r.schemaRef)
      case Some(rule) => Success(rule.converter)
      case None =>
        Failure(Complain(q, SchemaMismatch, SchemaNotDeclared(c.artifactId, c.schemaRef, r.schemaRef),
                         r.inputPort, [r.requirementId], [c.artifactId]))
  }

  function CurrentEpoch(policy: Policy, w: Witness): int {
    if w.scopeId in policy.scopeEpochs then policy.scopeEpochs[w.scopeId] else w.scopeEpoch
  }

  /** `_check_witness`. */
  function CheckWitness(q: Question, r: DataRequirement, c: AcceptedOutput): Result<Option<string>, Problem> {
    var policy := q.policy;
    if c.acceptanceId !in q.witnesses then
      if !policy.requireWitness then Success(None)
      else RefuseWitness(q, r, c, WitnessMissing, NoWitness(c.acceptanceId))
    else
      var w := q.witnesses[c.acceptanceId];
      if w.purpose !in policy.purposes then
        RefuseWitness(q, r, c, WitnessPurposeMismatch, WrongPurpose(w, policy.purposes))
      else if !w.consumerIsTask || w.consumerId != q.consumer.taskId then
        RefuseWitness(q, r, c, WitnessConsumerMismatch, WrongConsumer(w, q.consumer.taskId))
      else if w.supportRevision != c.supportRevision then
        RefuseWitness(q, r, c, WitnessSupportMismatch, WrongSupport(w, c.artifactId, c.supportRevision))
      else if w.decision != Usable then
        RefuseWitness(q, r, c, WitnessNotUsable, NotDecidedUsable(w))
      else if w.scopeId !in policy.scopeEpochs && !policy.allowUnknownScope then
        RefuseWitness(q, r, c, WitnessEpochUnknown, EpochUnknown(w))
      else if !w.IsFreshFor(policy.nowMs, CurrentEpoch(policy, w)) then
        RefuseWitness(q, r, c, WitnessNotUsable, WitnessStale(w, CurrentEpoch(policy, w)))
      else Success(Some(w.witnessId))
  }

  function RefuseWitness(q: Question, r: DataRequirement, c: AcceptedOutput, kind: ProblemKind, message: Message)
    : Result<Option<string>, Problem>
  {
    Failure(Complain(q, kind, message, r.inputPort, [r.requirementId], [c.artifactId]))
  }

  // ------------------------------------------------------------- one requirement at a time

  /** The body of the candidate loop. */
  function Weigh(q: Question, r: DataRequirement, spec: PortSpec, c: AcceptedOutput): Finding {
    if c.disclosure != Disclosable then
      Refused(Complain(q, NotDisclosable, NotReadable(c.artifactId, c.disclosure),
                       r.inputPort, [r.requirementId], [c.artifactId]))
    else
      match CheckSchema(q, r, spec, c)
      case Failure(problem) => Refused(problem)
      case Success(converter) =>
        if c.provisional && r.inputPort !in q.policy.provisionalPorts then
          Refused(Complain(q, ProvisionalNotAuthorized, SpeculationNotAuthorised(c.artifactId, r.inputPort),
                           r.inputPort, [r.requirementId], [c.artifactId]))
        else
          match CheckWitness(q, r, c)
          case Failure(problem) => Refused(problem)
          case Success(witnessId) => Licensed(Entry(r, c, converter, witnessId))
  }

  function Weigher(q: Question, r: DataRequirement, spec: PortSpec): AcceptedOutput -> Finding {
    (c: AcceptedOutput) => Weigh(q, r, spec, c)
  }

  /** The body of the requirement loop. */
  function Examine(q: Question, accepted: AcceptedIndex, r: DataRequirement): seq<Finding> {
    if r.consumerOccurrence != q.occurrence then
      [Refused(Complain(q, ForeignRequirement, FeedsOther(r.requirementId, r.consumerOccurrence, q.occurrence),
                        r.inputPort, [r.requirementId], []))]
    else
      match PortOf(q.consumer.inputPorts, r.inputPort)
      case None =>
        [Refused(Complain(q, UndeclaredPort, PortNotDeclared(r.requirementId, r.inputPort, q.consumer.taskId),
                          r.inputPort, [r.requirementId], []))]
      case Some(spec) =>
        if r.producerOccurrence !in accepted.completed then
          [Waiting(SymbolicBinding(r.requirementId, r.producerOccurrence, r.outputPort, q.consumer.taskId, r.inputPort),
                   Complain(q, PendingProducer, NotFinished(r.producerOccurrence, r.requirementId),
                            r.inputPort, [r.requirementId], []))]
        else
          match SelectByRevision(q, accepted, r)
          case Failure(problem) => [Refused(problem)]
          case Success(cs) => Map(cs, Weigher(q, r, spec))
  }

  function Examiner(q: Question, accepted: AcceptedIndex): DataRequirement -> seq<Finding> {
    (r: DataRequirement) => Examine(q, accepted, r)
  }

  function ExamineAll(q: Question, accepted: AcceptedIndex, rs: seq<DataRequirement>): seq<Finding> {
    FlatMap(rs, Examiner(q, accepted))
  }

  function ProblemIn(f: Finding): Option<Problem> { if f.Licensed? then None else Some(f.problem) }

  function PendingIn(f: Finding): Option<SymbolicBinding> { if f.Waiting? then Some(f.symbolic) else None }

  function PortIn(f: Finding): Option<string> {
    if f.Licensed? then Some(f.entry.requirement.inputPort) else None
  }

  function EntryAt(port: string): Finding -> Option<Entry> {
    (f: Finding) => if f.Licensed? && f.entry.requirement.inputPort == port then Some(f.entry) else None
  }

  function ProblemsOf(fs: seq<Finding>): seq<Problem> { Collect(fs, ProblemIn) }

  function PendingOf(fs: seq<Finding>): seq<SymbolicBinding> { Collect(fs, PendingIn) }

  /** The entries collected for one input port, in the order the loops found them. */
  function EntriesAt(fs: seq<Finding>, port: string): seq<Entry> { Collect(fs, EntryAt(port)) }

  // ------------------------------------------------------------------- one port at a time

  function ExplicitOrder(orders: seq<PortOrder>, port: string): Option<seq<string>> {
    if orders == [] then None
    else if orders[0].inputPort == port then Some(orders[0].requirementIds)
    else ExplicitOrder(orders[1..], port)
  }

  function OrderKeyName(spec: PortSpec): string {
    if spec.orderKey.Some? then spec.orderKey.value else ""
  }

  /** The value a set port orders an entry by, under the port's declared rule. */
  function PositionKey(q: Question, spec: PortSpec, ordering: PortOrdering, e: Entry): Option<Atom> {
    match ordering
    case ByProducerOrdinal => Some(Num(e.candidate.producerOrdinal))
    case ByKey =>
      if OrderKeyName(spec) in e.candidate.orderKeys then Some(Text(e.candidate.orderKeys[OrderKeyName(spec)]))
      else None
    case Explicit =>
      match ExplicitOrder(q.policy.explicitOrders, spec.portKey)
      case None => None
      case Some(declared) => Some(Num(IndexOf(declared, e.requirement.requirementId)))
  }

  function Positioner(q: Question, spec: PortSpec, ordering: PortOrdering): Entry -> Option<Atom> {
    (e: Entry) => PositionKey(q, spec, ordering, e)
  }

  function IdOf(e: Entry): string { e.requirement.requirementId }

  function ArtifactOf(e: Entry): string { e.candidate.artifactId }

  /** `sorted(set(s))`. */
  function SortedSet(s: seq<string>): seq<string> {
    if s == [] then [] else AddText(s[0], SortedSet(s[1..]))
  }

  function AddText(x: string, s: seq<string>): seq<string> {
    if s == [] then [x]
    else if x == s[0] then s
    else if TextLe(x, s[0]) then [x] + s
    else [s[0]] + AddText(x, s[1..])
  }

  /** A key's position among the sorted keys. */
  function RankIn(sorted: seq<Atom>): Atom -> nat {
    (k: Atom) => IndexOf(sorted, k)
  }

  /** `_order_entries`. */
  function OrderEntries(q: Question, spec: PortSpec, es: seq<Entry>): (r: Result<seq<nat>, Problem>)
    ensures r.Success? ==> |r.value| == |es|
  {
    var ids := Map(es, IdOf);
    if spec.ordering.None? then
      Failure(Complain(q, SetPortUnordered, NoOrdering(spec.portKey, |es|), spec.portKey, ids, []))
    else
      var ordering := spec.ordering.value;
      var keys := Collect(es, Positioner(q, spec, ordering));
      var declared := ExplicitOrder(q.policy.explicitOrders, spec.portKey);
      CollectAll(es, Positioner(q, spec, ordering));
      if ordering.ByKey? && |keys| < |es| then
        Failure(Complain(q, SetPortOrderIncomplete, OrderKeyAbsent(spec.portKey, OrderKeyName(spec), |es| - |keys|),
                         spec.portKey, ids, []))
      else if ordering.Explicit? && declared.None? then
        Failure(Complain(q, SetPortUnordered, NoExplicitOrder(spec.portKey), spec.portKey, ids, []))
      else if ordering.Explicit? && (Sort(declared.value, ByText) != Sort(ids, ByText) || Repeats(declared.value)) then
        Failure(Complain(q, SetPortOrderIncomplete,
                         ExplicitOrderDiffers(spec.portKey, declared.value, Sort(ids, ByText)),
                         spec.portKey, ids, []))
      else if Repeats(keys) then
        Failure(Complain(q, SetPortOrderIncomplete, PositionsShared(spec.portKey, ordering, OrderKeyName(spec)),
                         spec.portKey, ids, []))
      else Success(Map(keys, RankIn(Sort(keys, ByAtom))))
  }

  function MakeBinding(q: Question, e: Entry, ordinal: int): Binding {
    var (r, c) := (e.requirement, e.candidate);
    Binding(
      q.naming.bindingId(BindingIdentity(r.requirementId, q.consumer.taskId, r.inputPort,
                                         c.artifactId, c.contentHash, c.sourceRevision)),
      BoundInput(r.requirementId, c.producerResultId, c.acceptanceId, c.artifactId, c.contentHash,
                 r.schemaRef, c.sourceRevision),
      c.producerTaskRef, c.producerOccurrence, c.outputPort, c.supportRevision, q.consumer.taskId,
      r.inputPort, ordinal, c.sourceIdentity, c.schemaRef, r.assurancePolicy, r.freshnessPolicy,
      c.disclosureScope, r.revisionPolicy, e.converter,
      r.revisionPolicy.FollowAuthorized?
        && (r.requirementId !in q.policy.pinned || q.policy.pinned[r.requirementId] != c.sourceRevision),
      c.provisional, e.witnessId)
  }

  function Bind(q: Question, es: seq<Entry>, ordinals: seq<nat>): (bs: seq<Binding>)
    requires |es| == |ordinals|
    ensures |bs| == |es|
    ensures forall i :: 0 <= i < |es| ==> bs[i] == MakeBinding(q, es[i], ordinals[i])
  {
    if es == [] then [] else [MakeBinding(q, es[0], ordinals[0])] + Bind(q, es[1..], ordinals[1..])
  }

  function Zeros(n: nat): (zs: seq<nat>)
    ensures |zs| == n && forall i :: 0 <= i < n ==> zs[i] == 0
  {
    seq(n, i => 0)
  }

  /** The body of the port loop. */
  function Settle(q: Question, spec: PortSpec, es: seq<Entry>): Result<seq<Binding>, Problem> {
    if spec.cardinality.Single? && |es| > 1 then
      Failure(Complain(q, AmbiguousSinglePort, ManyCandidates(spec.portKey, |es|), spec.portKey,
                       SortedSet(Map(es, IdOf)), Sort(Map(es, ArtifactOf), ByText)))
    else if spec.cardinality.Many? then
      match OrderEntries(q, spec, es)
      case Failure(problem) => Failure(problem)
      case Success(ordinals) => Success(Bind(q, es, ordinals))
    else Success(Bind(q, es, Zeros(|es|)))
  }

  // ------------------------------------------------------------------------ the conclusion

  /** `sorted(per_port)`. */
  function UsedPorts(fs: seq<Finding>): seq<string> { SortedSet(Collect(fs, PortIn)) }

  /** Entries only exist for declared ports, so an undeclared port has nothing to settle. */
  function PortOutcome(q: Question, fs: seq<Finding>, port: string): Result<seq<Binding>, Problem> {
    match PortOf(q.consumer.inputPorts, port)
    case None => Success([])
    case Some(spec) => Settle(q, spec, EntriesAt(fs, port))
  }

  function BindingsFor(q: Question, fs: seq<Finding>): string -> seq<Binding> {
    (port: string) => match PortOutcome(q, fs, port) case Success(bs) => bs case Failure(_) => []
  }

  function RefusalFor(q: Question, fs: seq<Finding>): string -> Option<Problem> {
    (port: string) => match PortOutcome(q, fs, port) case Success(_) => None case Failure(p) => Some(p)
  }

  function AllBindings(q: Question, fs: seq<Finding>): seq<Binding> { FlatMap(UsedPorts(fs), BindingsFor(q, fs)) }

  function PortRefusals(q: Question, fs: seq<Finding>): seq<Problem> { Collect(UsedPorts(fs), RefusalFor(q, fs)) }

  /** A required port that is neither bound, nor pending, nor already explained. */
  function UnboundPort(q: Question, bound: set<string>, pending: set<string>, failed: set<Option<string>>)
    : PortSpec -> Option<Problem>
  {
    (spec: PortSpec) =>
      if spec.required && spec.portKey !in bound && spec.portKey !in pending && Some(spec.portKey) !in failed
      then Some(Complain(q, UnboundRequiredPort, NothingBound(spec.portKey, q.consumer.taskId), spec.portKey, [], []))
      else None
  }

  function BoundPorts(bs: seq<Binding>): set<string> { set b | b in bs :: b.inputPort }

  function PendingPorts(ss: seq<SymbolicBinding>): set<string> { set s | s in ss :: s.inputPort }

  function FailedPorts(ps: seq<Problem>): set<Option<string>> { set p | p in ps :: p.inputPort }

  function BindingIdOf(b: Binding): string { b.bindingId }

  /** The constructor of `InputManifest`: canonical order, and no repeated binding id. */
  function NewManifest(consumerTaskRef: string, bs: seq<Binding>, pending: seq<SymbolicBinding>): Option<Manifest> {
    if Repeats(Map(Sort(bs, ByPlace), BindingIdOf)) then None
    else Some(Manifest(consumerTaskRef, Sort(bs, ByPlace), Sort(pending, ByPending)))
  }

  predicate Blocking(ps: seq<Problem>) {
    exists p :: p in ps && p.kind != PendingProducer
  }

  function AllProblems(q: Question, fs: seq<Finding>): seq<Problem> {
    var problems := ProblemsOf(fs) + PortRefusals(q, fs);
    problems + Collect(q.consumer.inputPorts,
                       UnboundPort(q, BoundPorts(AllBindings(q, fs)), PendingPorts(PendingOf(fs)),
                                   FailedPorts(problems)))
  }

  /** What follows from the findings; the accepted outputs are not consulted again. */
  function Conclude(q: Question, fs: seq<Finding>): Resolution {
    var problems := Sort(AllProblems(q, fs), BySeverity);
    if Blocking(problems) then Answer(None, problems)
    else
      match NewManifest(q.consumer.taskId, AllBindings(q, fs), PendingOf(fs))
      case None => Raised
      case Some(manifest) => Answer(Some(manifest), problems)
  }

  function Resolve(q: Question, requirements: seq<DataRequirement>, accepted: AcceptedIndex): Resolution {
    Conclude(q, ExamineAll(q, accepted, Sort(requirements, ById)))
  }
}
