/** The records that input resolution reads and writes.

    Identifiers are strings. Digests and message texts are functions supplied by `Naming`, so
    everything proved holds for every digest and every wording.
 */
module InputModel {
  import opened Sequences

  datatype VersionedRef = VersionedRef(id: string, version: int, contentHash: string)

  datatype ResourceIdentity = ResourceIdentity(namespace: string, path: string)

  datatype Disclosure = Disclosable | Revoked | Deleted | PurposeRestricted

  datatype Cardinality = Single | Many

  datatype PortOrdering = ByProducerOrdinal | ByKey | Explicit

  datatype RevisionPolicy = Pinned | FollowAuthorized

  datatype Purpose = Plan | Start | Maintain | Accept | Context | Disclose | Recovery

  datatype Decision = Usable | NeedsReview | Blocked | Unavailable

  datatype Validity = Current | Stale | Withdrawn

  datatype PortSpec = PortSpec(
    portKey: string, schemaRef: VersionedRef, cardinality: Cardinality, required: bool,
    ordering: Option<PortOrdering>, orderKey: Option<string>)

  /** The part of a task's semantic binding that resolution reads. */
  datatype Consumer = Consumer(taskId: string, inputPorts: seq<PortSpec>)

  datatype DataRequirement = DataRequirement(
    requirementId: string, producerOccurrence: string, outputPort: string,
    consumerOccurrence: string, inputPort: string, schemaRef: VersionedRef,
    assurancePolicy: string, freshnessPolicy: string, revisionPolicy: RevisionPolicy)

  datatype AcceptedOutput = AcceptedOutput(
    producerOccurrence: string, producerTaskRef: string, outputPort: string,
    producerResultId: string, acceptanceId: string, supportRevision: int,
    artifactId: string, contentHash: string, schemaRef: VersionedRef, sourceRevision: string,
    sourceIdentity: ResourceIdentity, producerOrdinal: int, orderKeys: map<string, string>,
    disclosure: Disclosure, disclosureScope: string, provisional: bool)

  datatype AcceptedIndex = AcceptedIndex(
    outputs: seq<AcceptedOutput>, completed: set<string>,
    authorized: map<(string, string), string>)

  datatype Witness = Witness(
    witnessId: string, consumerIsTask: bool, consumerId: string, purpose: Purpose,
    freshness: Validity, decision: Decision, scopeId: string, scopeEpoch: int,
    supportRevision: int, notAfterMs: Option<int>)
  {
    /** The deadline is exclusive: at the instant it expires the witness is expired. */
    predicate IsFreshFor(nowMs: int, currentEpoch: int) {
      && scopeEpoch == currentEpoch
      && (notAfterMs.Some? ==> nowMs < notAfterMs.value)
      && freshness == Current
    }
  }

  datatype SchemaRule = SchemaRule(produced: VersionedRef, required: VersionedRef, converter: Option<string>)

  datatype PortOrder = PortOrder(inputPort: string, requirementIds: seq<string>)

  datatype Policy = Policy(
    schemaRules: seq<SchemaRule>, explicitOrders: seq<PortOrder>,
    pinned: map<string, string>, provisionalPorts: set<string>, requireWitness: bool,
    purposes: set<Purpose>, nowMs: int, scopeEpochs: map<string, int>, allowUnknownScope: bool)

  datatype BoundInput = BoundInput(
    requirementId: string, producerResultId: string, acceptanceId: string, artifactId: string,
    contentHash: string, schemaRef: VersionedRef, sourceRevision: string)

  datatype Binding = Binding(
    bindingId: string, bound: BoundInput, producerTaskRef: string, producerOccurrence: string,
    outputPort: string, supportRevision: int, consumerTaskRef: string, inputPort: string,
    portOrdinal: int, sourceIdentity: ResourceIdentity, producedSchema: VersionedRef,
    readPolicy: string, freshnessPolicy: string, disclosureScope: string,
    revisionPolicy: RevisionPolicy, converter: Option<string>, requiresReacceptance: bool,
    provisional: bool, witnessId: Option<string>)

  datatype SymbolicBinding = SymbolicBinding(
    requirementId: string, producerOccurrence: string, outputPort: string,
    consumerTaskRef: string, inputPort: string)

  datatype Manifest = Manifest(consumerTaskRef: string, bindings: seq<Binding>, pending: seq<SymbolicBinding>)
  {
    predicate IsFrozen() { pending == [] }
  }

  datatype ProblemKind =
    | AmbiguousSinglePort | SetPortUnordered | SetPortOrderIncomplete | UndeclaredPort
    | ForeignRequirement | UnboundRequiredPort | SchemaMismatch | NotDisclosable
    | WitnessMissing | WitnessNotUsable | WitnessPurposeMismatch | WitnessConsumerMismatch
    | WitnessSupportMismatch | WitnessEpochUnknown | PendingProducer
    | ProvisionalNotAuthorized | RevisionNotAvailable | TargetPathConflict | TargetPathInvalid

  /** The wire value of a kind, which is what refusals are sorted by. */
  function KindText(kind: ProblemKind): string {
    match kind
    case AmbiguousSinglePort => "ambiguous_single_port"
    case SetPortUnordered => "set_port_unordered"
    case SetPortOrderIncomplete => "set_port_order_incomplete"
    case UndeclaredPort => "undeclared_port"
    case ForeignRequirement => "foreign_requirement"
    case UnboundRequiredPort => "unbound_required_port"
    case SchemaMismatch => "schema_mismatch"
    case NotDisclosable => "not_disclosable"
    case WitnessMissing => "witness_missing"
    case WitnessNotUsable => "witness_not_usable"
    case WitnessPurposeMismatch => "witness_purpose_mismatch"
    case WitnessConsumerMismatch => "witness_consumer_mismatch"
    case WitnessSupportMismatch => "witness_support_mismatch"
    case WitnessEpochUnknown => "witness_epoch_unknown"
    case PendingProducer => "pending_producer"
    case ProvisionalNotAuthorized => "provisional_not_authorized"
    case RevisionNotAvailable => "revision_not_available"
    case TargetPathConflict => "target_path_conflict"
    case TargetPathInvalid => "target_path_invalid"
  }

  datatype Problem = Problem(
    kind: ProblemKind, detail: string, inputPort: Option<string>,
    requirementIds: seq<string>, candidates: seq<string>, inputPorts: seq<string>)

  /** What each refusal's message text interpolates. */
  datatype Message =
    | FeedsOther(requirementId: string, feeds: string, wanted: string)
    | PortNotDeclared(requirementId: string, port: string, taskId: string)
    | NotFinished(producer: string, requirementId: string)
    | RevisionAbsent(target: string, producer: string, outputPort: string)
    | NotReadable(artifactId: string, disclosure: Disclosure)
    | PortSchemaDiffers(requirementId: string, schemaRef: VersionedRef, port: string, portSchema: VersionedRef)
    | SchemaNotDeclared(artifactId: string, schemaRef: VersionedRef, required: VersionedRef)
    | SpeculationNotAuthorised(artifactId: string, port: string)
    | NoWitness(acceptanceId: string)
    | WrongPurpose(w: Witness, purposes: set<Purpose>)
    | WrongConsumer(w: Witness, taskId: string)
    | WrongSupport(w: Witness, artifactId: string, supportRevision: int)
    | NotDecidedUsable(w: Witness)
    | EpochUnknown(w: Witness)
    | WitnessStale(w: Witness, currentEpoch: int)
    | NoOrdering(port: string, count: nat)
    | OrderKeyAbsent(port: string, key: string, missing: nat)
    | NoExplicitOrder(port: string)
    | ExplicitOrderDiffers(port: string, declared: seq<string>, bound: seq<string>)
    | PositionsShared(port: string, ordering: PortOrdering, key: string)
    | ManyCandidates(port: string, count: nat)
    | NothingBound(port: string, taskId: string)
    | LeavesNamespace(bindingId: string, path: string)
    | PlaceContested(count: nat, path: string, namespace: string)

  /** What a binding id is the digest of. */
  datatype BindingIdentity = BindingIdentity(
    requirementId: string, consumerTaskRef: string, inputPort: string,
    artifactId: string, contentHash: string, sourceRevision: string)

  datatype Naming = Naming(bindingId: BindingIdentity -> string, wording: Message -> string)
}
