/** The persisted form of frozen manifests and of target rules.

    JSON text is abstracted to JSON values: the canonical serialisation is injective, so two texts are
    equal exactly when the values are. Object keys are the record's field names, or free names where the
    object is a dictionary.
 */
module ManifestCodec {
  import opened InputModel
  import opened Ordering
  import opened Sequences
  import opened Resolution
  import opened TextLines

  datatype Field =
    | BindingId | BoundInputField | ProducerTaskRef | ProducerOccurrence | OutputPort | SupportRevision
    | ConsumerTaskRef | InputPort | PortOrdinal | SourceIdentity | ProducedSchemaRef | ReadPolicy
    | FreshnessPolicy | DisclosureScope | SourceRevisionPolicy | ConverterRef | RequiresReacceptance
    | Provisional | WitnessId | RequirementId | ProducerResultId | AcceptanceId | ArtifactId | ContentHash
    | SchemaRef | SourceRevision | Id | Version | Namespace | Path | Bindings | Pending | ManifestHash
    | PortPrefixes | PreserveSourceNamespace | CaseInsensitive
    | Name(name: string)

  datatype Json =
    | Null | Bool(b: bool) | Int(n: int) | Real(x: real) | Str(s: string)
    | Arr(items: seq<Json>) | Obj(fields: map<Field, Json>)

  /** What the codec leaves to others: the digest of a manifest and the path normaliser. */
  datatype Foreign = Foreign(manifestHash: (string, seq<Binding>) -> string, normalise: string -> string)

  const MAX_INDEX := 9007199254740991

  // ------------------------------------------------------------------------------- encoding

  function EncodeRef(v: VersionedRef): Json {
    Obj(map[Id := Str(v.id), Version := Int(v.version), ContentHash := Str(v.contentHash)])
  }

  function EncodeIdentity(i: ResourceIdentity): Json {
    Obj(map[Namespace := Str(i.namespace), Path := Str(i.path)])
  }

  function EncodeBound(b: BoundInput): Json {
    Obj(map[RequirementId := Str(b.requirementId), ProducerResultId := Str(b.producerResultId),
            AcceptanceId := Str(b.acceptanceId), ArtifactId := Str(b.artifactId),
            ContentHash := Str(b.contentHash), SchemaRef := EncodeRef(b.schemaRef),
            SourceRevision := Str(b.sourceRevision)])
  }

  function EncodeOptional(t: Option<string>): Json {
    if t.Some? then Str(t.value) else Null
  }

  function PolicyText(p: RevisionPolicy): string {
    if p.Pinned? then "PINNED" else "FOLLOW_AUTHORIZED_REVISION"
  }

  const BINDING_FIELDS: set<Field> :=
    {BindingId, BoundInputField, ProducerTaskRef, ProducerOccurrence, OutputPort, SupportRevision, ConsumerTaskRef,
     InputPort, PortOrdinal, SourceIdentity, ProducedSchemaRef, ReadPolicy, FreshnessPolicy, DisclosureScope,
     SourceRevisionPolicy, ConverterRef, RequiresReacceptance, Provisional, WitnessId}

  function BindingField(b: Binding, f: Field): Json {
    match f
    case BindingId => Str(b.bindingId)
    case BoundInputField => EncodeBound(b.bound)
    case ProducerTaskRef => Str(b.producerTaskRef)
    case ProducerOccurrence => Str(b.producerOccurrence)
    case OutputPort => Str(b.outputPort)
    case SupportRevision => Int(b.supportRevision)
    case ConsumerTaskRef => Str(b.consumerTaskRef)
    case InputPort => Str(b.inputPort)
    case PortOrdinal => Int(b.portOrdinal)
    case SourceIdentity => EncodeIdentity(b.sourceIdentity)
    case ProducedSchemaRef => EncodeRef(b.producedSchema)
    case ReadPolicy => Str(b.readPolicy)
    case FreshnessPolicy => Str(b.freshnessPolicy)
    case DisclosureScope => Str(b.disclosureScope)
    case SourceRevisionPolicy => Str(PolicyText(b.revisionPolicy))
    case ConverterRef => EncodeOptional(b.converter)
    case RequiresReacceptance => Bool(b.requiresReacceptance)
    case Provisional => Bool(b.provisional)
    case WitnessId => EncodeOptional(b.witnessId)
    case _ => Null
  }

  /** `ResolvedInputBinding.to_json`. */
  function EncodeBinding(b: Binding): Json {
    Obj(map f | f in BINDING_FIELDS :: BindingField(b, f))
  }

  /** `InputManifest.to_json` of a frozen manifest. */
  function EncodeManifest(env: Foreign, m: Manifest): Json {
    Obj(map[ConsumerTaskRef := Str(m.consumerTaskRef), Bindings := Arr(Map(m.bindings, EncodeBinding)),
            Pending := Arr([]), ManifestHash := Str(env.manifestHash(m.consumerTaskRef, m.bindings))])
  }

  // ------------------------------------------------------------------------ what is well formed

  predicate IsControl(c: char) {
    var n := c as int;
    0 <= n <= 8 || n == 11 || n == 12 || 14 <= n <= 31 || n == 127
  }

  /** `contracts.semantic_base.identifier`. */
  predicate IsIdentifier(t: string) { !Blank(t) && |t| <= 512 && forall c :: c in t ==> !IsControl(c) }

  /** `contracts.semantic_base.hash_hex`. */
  predicate IsHash(t: string) { |t| == 64 && forall c :: c in t ==> '0' <= c <= '9' || 'a' <= c <= 'f' }

  predicate IsText(t: string) { 0 < |t| <= 4096 }

  predicate IsIndex(n: int) { 0 <= n <= MAX_INDEX }

  predicate RefOk(v: VersionedRef) { IsIdentifier(v.id) && 1 <= v.version <= MAX_INDEX && IsHash(v.contentHash) }

  predicate IdentityOk(env: Foreign, i: ResourceIdentity) {
    && IsText(i.namespace) && !Blank(i.namespace)
    && IsText(i.path) && !Blank(i.path) && env.normalise(i.path) == i.path
  }

  predicate BoundOk(b: BoundInput) {
    && IsIdentifier(b.requirementId) && IsIdentifier(b.producerResultId) && IsIdentifier(b.acceptanceId)
    && IsIdentifier(b.artifactId) && IsHash(b.contentHash) && RefOk(b.schemaRef) && IsIdentifier(b.sourceRevision)
  }

  predicate BindingOk(env: Foreign, b: Binding) {
    && IsText(b.bindingId) && BoundOk(b.bound) && IsText(b.producerTaskRef) && IsText(b.producerOccurrence)
    && IsText(b.outputPort) && IsIndex(b.supportRevision) && IsText(b.consumerTaskRef) && IsText(b.inputPort)
    && IsIndex(b.portOrdinal) && IdentityOk(env, b.sourceIdentity) && RefOk(b.producedSchema)
    && IsText(b.readPolicy) && IsText(b.freshnessPolicy) && IsText(b.disclosureScope)
    && (b.converter.Some? ==> IsText(b.converter.value)) && (b.witnessId.Some? ==> IsText(b.witnessId.value))
  }

  /** A frozen manifest in canonical order, all of whose bindings name its consumer. */
  ghost predicate ManifestOk(env: Foreign, m: Manifest) {
    && IsText(m.consumerTaskRef) && m.IsFrozen()
    && (forall b :: b in m.bindings ==> BindingOk(env, b) && b.consumerTaskRef == m.consumerTaskRef)
    && Sorted(m.bindings, ByPlace) && !Repeats(Map(m.bindings, BindingIdOf))
  }

  // ------------------------------------------------------------------------------- decoding

  function Get(v: Json, f: Field): Option<Json> {
    if v.Obj? && f in v.fields then Some(v.fields[f]) else None
  }

  function GetText(v: Json, f: Field, ok: string -> bool): Option<string> {
    var t :- Get(v, f);
    if t.Str? && ok(t.s) then Some(t.s) else None
  }

  function GetIndex(v: Json, f: Field, least: int): Option<int> {
    var t :- Get(v, f);
    if t.Int? && least <= t.n <= MAX_INDEX then Some(t.n) else None
  }

  function GetBool(v: Json, f: Field): Option<bool> {
    var t :- Get(v, f);
    if t.Bool? then Some(t.b) else None
  }

  function GetOptional(v: Json, f: Field): Option<Option<string>> {
    var t :- Get(v, f);
    if t.Null? then Some(None) else if t.Str? && IsText(t.s) then Some(Some(t.s)) else None
  }

  /** `VersionedRef.from_json`: exactly the three fields. */
  function DecodeRef(v: Json): Option<VersionedRef> {
    var id :- GetText(v, Id, IsIdentifier);
    var version :- GetIndex(v, Version, 1);
    var contentHash :- GetText(v, ContentHash, IsHash);
    if v.fields.Keys == {Id, Version, ContentHash} then Some(VersionedRef(id, version, contentHash)) else None
  }

  /** `BoundInput.from_json`: exactly the seven fields. */
  function DecodeBound(v: Json): Option<BoundInput> {
    var requirementId :- GetText(v, RequirementId, IsIdentifier);
    var producerResultId :- GetText(v, ProducerResultId, IsIdentifier);
    var acceptanceId :- GetText(v, AcceptanceId, IsIdentifier);
    var artifactId :- GetText(v, ArtifactId, IsIdentifier);
    var contentHash :- GetText(v, ContentHash, IsHash);
    var schema :- Get(v, SchemaRef);
    var schemaRef :- DecodeRef(schema);
    var sourceRevision :- GetText(v, SourceRevision, IsIdentifier);
    if v.fields.Keys == {RequirementId, ProducerResultId, AcceptanceId, ArtifactId, ContentHash, SchemaRef,
                         SourceRevision}
    then Some(BoundInput(requirementId, producerResultId, acceptanceId, artifactId, contentHash, schemaRef,
                         sourceRevision))
    else None
  }

  /** The constructor of `ResourceIdentity` on decoded texts: the path is normalised on the way in. */
  function DecodeIdentity(env: Foreign, v: Json): Option<ResourceIdentity> {
    var namespace :- GetText(v, Namespace, IsText);
    var path :- GetText(v, Path, IsText);
    if Blank(namespace) || Blank(path) || env.normalise(path) == [] then None
    else Some(ResourceIdentity(namespace, env.normalise(path)))
  }

  function DecodePolicy(v: Json): Option<RevisionPolicy> {
    if v == Str("PINNED") then Some(Pinned)
    else if v == Str("FOLLOW_AUTHORIZED_REVISION") then Some(FollowAuthorized)
    else None
  }

  /** Who produced an input at which port, and which consumer port it feeds. */
  datatype Route = Route(
    bindingId: string, producerTaskRef: string, producerOccurrence: string, outputPort: string,
    supportRevision: int, consumerTaskRef: string, inputPort: string, portOrdinal: int)

  /** The read, freshness and disclosure terms of an input. */
  datatype Terms = Terms(
    readPolicy: string, freshnessPolicy: string, disclosureScope: string, revisionPolicy: RevisionPolicy,
    converter: Option<string>, requiresReacceptance: bool, provisional: bool, witnessId: Option<string>)

  function DecodeRoute(v: Json): Option<Route> {
    var bindingId :- GetText(v, BindingId, IsText);
    var producerTaskRef :- GetText(v, ProducerTaskRef, IsText);
    var producerOccurrence :- GetText(v, ProducerOccurrence, IsText);
    var outputPort :- GetText(v, OutputPort, IsText);
    var supportRevision :- GetIndex(v, SupportRevision, 0);
    var consumerTaskRef :- GetText(v, ConsumerTaskRef, IsText);
    var inputPort :- GetText(v, InputPort, IsText);
    var portOrdinal :- GetIndex(v, PortOrdinal, 0);
    Some(Route(bindingId, producerTaskRef, producerOccurrence, outputPort, supportRevision, consumerTaskRef,
               inputPort, portOrdinal))
  }

  function DecodeTerms(v: Json): Option<Terms> {
    var readPolicy :- GetText(v, ReadPolicy, IsText);
    var freshnessPolicy :- GetText(v, FreshnessPolicy, IsText);
    var disclosureScope :- GetText(v, DisclosureScope, IsText);
    var policyJson :- Get(v, SourceRevisionPolicy);
    var revisionPolicy :- DecodePolicy(policyJson);
    var converter :- GetOptional(v, ConverterRef);
    var requiresReacceptance :- GetBool(v, RequiresReacceptance);
    var provisional :- GetBool(v, Provisional);
    var witnessId :- GetOptional(v, WitnessId);
    Some(Terms(readPolicy, freshnessPolicy, disclosureScope, revisionPolicy, converter, requiresReacceptance,
               provisional, witnessId))
  }

  function DecodeBinding(env: Foreign, v: Json): Option<Binding> {
    var boundJson :- Get(v, BoundInputField);
    var bound :- DecodeBound(boundJson);
    var route :- DecodeRoute(v);
    var identityJson :- Get(v, SourceIdentity);
    var sourceIdentity :- DecodeIdentity(env, identityJson);
    var schemaJson :- Get(v, ProducedSchemaRef);
    var producedSchema :- DecodeRef(schemaJson);
    var terms :- DecodeTerms(v);
    Some(Binding(route.bindingId, bound, route.producerTaskRef, route.producerOccurrence, route.outputPort,
                 route.supportRevision, route.consumerTaskRef, route.inputPort, route.portOrdinal, sourceIdentity,
                 producedSchema, terms.readPolicy, terms.freshnessPolicy, terms.disclosureScope, terms.revisionPolicy,
                 terms.converter, terms.requiresReacceptance, terms.provisional, terms.witnessId))
  }

  lemma RefRoundTrip(v: VersionedRef)
    requires RefOk(v)
    ensures DecodeRef(EncodeRef(v)) == Some(v)
  {
    assert EncodeRef(v).fields.Keys == {Id, Version, ContentHash};
  }

  lemma BoundRoundTrip(b: BoundInput)
    requires BoundOk(b)
    ensures DecodeBound(EncodeBound(b)) == Some(b)
  {
    RefRoundTrip(b.schemaRef);
    assert EncodeBound(b).fields.Keys
        == {RequirementId, ProducerResultId, AcceptanceId, ArtifactId, ContentHash, SchemaRef, SourceRevision};
  }

  lemma IdentityRoundTrip(env: Foreign, i: ResourceIdentity)
    requires IdentityOk(env, i)
    ensures DecodeIdentity(env, EncodeIdentity(i)) == Some(i)
  {
  }

  predicate RouteOk(r: Route) {
    && IsText(r.bindingId) && IsText(r.producerTaskRef) && IsText(r.producerOccurrence) && IsText(r.outputPort)
    && IsIndex(r.supportRevision) && IsText(r.consumerTaskRef) && IsText(r.inputPort) && IsIndex(r.portOrdinal)
  }

  predicate TermsOk(t: Terms) {
    && IsText(t.readPolicy) && IsText(t.freshnessPolicy) && IsText(t.disclosureScope)
    && (t.converter.Some? ==> IsText(t.converter.value)) && (t.witnessId.Some? ==> IsText(t.witnessId.value))
  }

  function RouteOf(b: Binding): Route {
    Route(b.bindingId, b.producerTaskRef, b.producerOccurrence, b.outputPort, b.supportRevision, b.consumerTaskRef,
          b.inputPort, b.portOrdinal)
  }

  function TermsOf(b: Binding): Terms {
    Terms(b.readPolicy, b.freshnessPolicy, b.disclosureScope, b.revisionPolicy, b.converter, b.requiresReacceptance,
          b.provisional, b.witnessId)
  }

  predicate CarriesRoute(v: Json, r: Route) {
    && Get(v, BindingId) == Some(Str(r.bindingId)) && Get(v, ProducerTaskRef) == Some(Str(r.producerTaskRef))
    && Get(v, ProducerOccurrence) == Some(Str(r.producerOccurrence)) && Get(v, OutputPort) == Some(Str(r.outputPort))
    && Get(v, SupportRevision) == Some(Int(r.supportRevision)) && Get(v, PortOrdinal) == Some(Int(r.portOrdinal))
    && Get(v, ConsumerTaskRef) == Some(Str(r.consumerTaskRef)) && Get(v, InputPort) == Some(Str(r.inputPort))
  }

  predicate CarriesPolicies(v: Json, t: Terms) {
    && Get(v, ReadPolicy) == Some(Str(t.readPolicy)) && Get(v, FreshnessPolicy) == Some(Str(t.freshnessPolicy))
    && Get(v, DisclosureScope) == Some(Str(t.disclosureScope))
    && Get(v, SourceRevisionPolicy) == Some(Str(PolicyText(t.revisionPolicy)))
  }

  predicate CarriesGrounds(v: Json, t: Terms) {
    && Get(v, ConverterRef) == Some(EncodeOptional(t.converter))
    && Get(v, RequiresReacceptance) == Some(Bool(t.requiresReacceptance))
    && Get(v, Provisional) == Some(Bool(t.provisional)) && Get(v, WitnessId) == Some(EncodeOptional(t.witnessId))
  }

  predicate CarriesTerms(v: Json, t: Terms) { CarriesPolicies(v, t) && CarriesGrounds(v, t) }

  predicate CarriesParts(v: Json, b: Binding) {
    && Get(v, BoundInputField) == Some(EncodeBound(b.bound))
    && Get(v, SourceIdentity) == Some(EncodeIdentity(b.sourceIdentity))
    && Get(v, ProducedSchemaRef) == Some(EncodeRef(b.producedSchema))
  }

  lemma EncodedField(b: Binding, f: Field)
    requires f in BINDING_FIELDS
    ensures Get(EncodeBinding(b), f) == Some(BindingField(b, f))
  {
  }

  lemma EncodedRoute(b: Binding)
    ensures CarriesRoute(EncodeBinding(b), RouteOf(b))
  {
    EncodedField(b, BindingId);
    EncodedField(b, ProducerTaskRef);
    EncodedField(b, ProducerOccurrence);
    EncodedField(b, OutputPort);
    EncodedField(b, SupportRevision);
    EncodedField(b, PortOrdinal);
    EncodedField(b, ConsumerTaskRef);
    EncodedField(b, InputPort);
  }

  lemma EncodedPolicies(b: Binding)
    ensures CarriesPolicies(EncodeBinding(b), TermsOf(b))
  {
    EncodedField(b, ReadPolicy);
    EncodedField(b, FreshnessPolicy);
    EncodedField(b, DisclosureScope);
    EncodedField(b, SourceRevisionPolicy);
  }

  lemma EncodedGrounds(b: Binding)
    ensures CarriesGrounds(EncodeBinding(b), TermsOf(b))
  {
    EncodedField(b, ConverterRef);
    EncodedField(b, RequiresReacceptance);
    EncodedField(b, Provisional);
    EncodedField(b, WitnessId);
  }

  lemma EncodedTerms(b: Binding)
    ensures CarriesTerms(EncodeBinding(b), TermsOf(b))
  {
    EncodedPolicies(b);
    EncodedGrounds(b);
  }

  lemma EncodedParts(b: Binding)
    ensures CarriesParts(EncodeBinding(b), b)
  {
    EncodedField(b, BoundInputField);
    EncodedField(b, SourceIdentity);
    EncodedField(b, ProducedSchemaRef);
  }

  lemma RouteRoundTrip(v: Json, r: Route)
    requires CarriesRoute(v, r) && RouteOk(r)
    ensures DecodeRoute(v) == Some(r)
  {
  }

  lemma PolicyRoundTrip(p: RevisionPolicy)
    ensures DecodePolicy(Str(PolicyText(p))) == Some(p)
  {
    assert |"PINNED"| != |"FOLLOW_AUTHORIZED_REVISION"|;
  }

  lemma TermsRoundTrip(v: Json, t: Terms)
    requires CarriesTerms(v, t) && TermsOk(t)
    ensures DecodeTerms(v) == Some(t)
  {
    PolicyRoundTrip(t.revisionPolicy);
  }

  lemma PartsRoundTrip(env: Foreign, v: Json, b: Binding)
    requires CarriesParts(v, b)
    requires DecodeBound(EncodeBound(b.bound)) == Some(b.bound)
    requires DecodeIdentity(env, EncodeIdentity(b.sourceIdentity)) == Some(b.sourceIdentity)
    requires DecodeRef(EncodeRef(b.producedSchema)) == Some(b.producedSchema)
    requires DecodeRoute(v) == Some(RouteOf(b)) && DecodeTerms(v) == Some(TermsOf(b))
    ensures DecodeBinding(env, v) == Some(b)
  {
  }

  lemma CarriedRoundTrip(env: Foreign, v: Json, b: Binding)
    requires CarriesRoute(v, RouteOf(b)) && CarriesTerms(v, TermsOf(b)) && CarriesParts(v, b) && BindingOk(env, b)
    ensures DecodeBinding(env, v) == Some(b)
  {
    BoundRoundTrip(b.bound);
    RefRoundTrip(b.producedSchema);
    IdentityRoundTrip(env, b.sourceIdentity);
    RouteRoundTrip(v, RouteOf(b));
    TermsRoundTrip(v, TermsOf(b));
    PartsRoundTrip(env, v, b);
  }

  /** Decoding the encoding of a well-formed binding gives it back. */
  lemma BindingRoundTrip(env: Foreign, b: Binding)
    requires BindingOk(env, b)
    ensures DecodeBinding(env, EncodeBinding(b)) == Some(b)
  {
    EncodedRoute(b);
    EncodedTerms(b);
    EncodedParts(b);
    CarriedRoundTrip(env, EncodeBinding(b), b);
  }

  lemma DecodedRefOk(v: Json, r: VersionedRef)
    requires DecodeRef(v) == Some(r)
    ensures RefOk(r)
  {
  }

  lemma DecodedBoundOk(v: Json, b: BoundInput)
    requires DecodeBound(v) == Some(b)
    ensures BoundOk(b)
  {
    DecodedRefOk(v.fields[SchemaRef], b.schemaRef);
  }

  lemma DecodedIdentityOk(env: Foreign, v: Json, i: ResourceIdentity)
    requires DecodeIdentity(env, v) == Some(i) && EncodeIdentity(i) == v
    ensures IdentityOk(env, i)
  {
    assert v.fields[Path] == Str(i.path) && v.fields[Namespace] == Str(i.namespace);
  }

  lemma DecodedRouteOk(v: Json, r: Route)
    requires DecodeRoute(v) == Some(r)
    ensures RouteOk(r)
  {
  }

  lemma DecodedTermsOk(v: Json, t: Terms)
    requires DecodeTerms(v) == Some(t)
    ensures TermsOk(t)
  {
  }

  /** A binding that encodes to the value it was decoded from is well formed. */
  lemma DecodedBindingOk(env: Foreign, v: Json, b: Binding)
    requires DecodeBinding(env, v) == Some(b) && EncodeBinding(b) == v
    ensures BindingOk(env, b)
  {
    EncodedParts(b);
    DecodedPartsOk(env, v, b);
  }

  lemma DecodedPartsOk(env: Foreign, v: Json, b: Binding)
    requires DecodeBinding(env, v) == Some(b) && CarriesParts(v, b)
    ensures BindingOk(env, b)
  {
    DecodedBoundOk(v.fields[BoundInputField], b.bound);
    DecodedIdentityOk(env, v.fields[SourceIdentity], b.sourceIdentity);
    DecodedRefOk(v.fields[ProducedSchemaRef], b.producedSchema);
    assert DecodeRoute(v) == Some(RouteOf(b)) && DecodeTerms(v) == Some(TermsOf(b));
    DecodedRouteOk(v, RouteOf(b));
    DecodedTermsOk(v, TermsOf(b));
  }

  // ------------------------------------------------------------------------ whole manifests

  /** The loop body: decode one item, hold it to the manifest's consumer and to its own bytes. */
  function DecodeItem(env: Foreign, consumer: string, item: Json): Option<Binding> {
    var one :- DecodeBinding(env, item);
    if one.consumerTaskRef == consumer && EncodeBinding(one) == item then Some(one) else None
  }

  predicate Framed(v: Json) {
    && v.Obj? && v.fields.Keys == {ConsumerTaskRef, Bindings, Pending, ManifestHash}
    && v.fields[Pending] == Arr([]) && v.fields[Bindings].Arr?
    && v.fields[ConsumerTaskRef].Str? && IsText(v.fields[ConsumerTaskRef].s)
  }

  ghost predicate Encodes(env: Foreign, m: Manifest, v: Json) {
    ManifestOk(env, m) && EncodeManifest(env, m) == v
  }

  lemma EncodedFramed(env: Foreign, m: Manifest, v: Json)
    requires Encodes(env, m, v)
    ensures Framed(v) && v.fields[ConsumerTaskRef].s == m.consumerTaskRef
    ensures v.fields[Bindings].items == Map(m.bindings, EncodeBinding)
  {
    assert v.fields.Keys == {ConsumerTaskRef, Bindings, Pending, ManifestHash};
  }

  lemma EncodedItem(env: Foreign, m: Manifest, v: Json, i: nat)
    requires Encodes(env, m, v) && i < |m.bindings|
    ensures DecodeItem(env, m.consumerTaskRef, EncodeBinding(m.bindings[i])) == Some(m.bindings[i])
  {
    assert m.bindings[i] in m.bindings;
    BindingRoundTrip(env, m.bindings[i]);
  }

  function ItemDecoder(env: Foreign, consumer: string): Json -> Option<Binding> {
    (item: Json) => DecodeItem(env, consumer, item)
  }

  ghost predicate AllDecoded<T, U>(items: seq<T>, decode: T -> Option<U>, values: seq<U>) {
    |values| == |items| && forall j :: 0 <= j < |items| ==> decode(items[j]) == Some(values[j])
  }

  /** The loop over the stored bindings: every item decodes, or the whole is refused. */
  method DecodeItems<T, U>(items: seq<T>, decode: T -> Option<U>) returns (r: Option<seq<U>>)
    ensures r.Some? ==> AllDecoded(items, decode, r.value)
    ensures forall values :: AllDecoded(items, decode, values) ==> r == Some(values)
  {
    var values: seq<U> := [];
    for i := 0 to |items|
      invariant |values| == i
      invariant forall j :: 0 <= j < i ==> decode(items[j]) == Some(values[j])
    {
      var one := decode(items[i]);
      if one.None? {
        return None;
      }
      values := values + [one.value];
    }
    forall others | AllDecoded(items, decode, others) ensures others == values {
      assert forall j :: 0 <= j < |items| ==> Some(others[j]) == decode(items[j]) == Some(values[j]);
    }
    return Some(values);
  }

  lemma EncodedItems(env: Foreign, m: Manifest, v: Json)
    requires Encodes(env, m, v)
    ensures Framed(v) && v.fields[ConsumerTaskRef].s == m.consumerTaskRef
    ensures AllDecoded(v.fields[Bindings].items, ItemDecoder(env, m.consumerTaskRef), m.bindings)
    ensures NewManifest(m.consumerTaskRef, m.bindings, []) == Some(m)
  {
    EncodedFramed(env, m, v);
    var items := v.fields[Bindings].items;
    forall i | 0 <= i < |items| ensures ItemDecoder(env, m.consumerTaskRef)(items[i]) == Some(m.bindings[i]) {
      EncodedItem(env, m, v, i);
    }
    SortOfSorted(m.bindings, ByPlace);
  }

  /** `decode_frozen_manifest`. What it accepts encodes to exactly its input, and it accepts every
      encoding of a well-formed frozen manifest and gives that manifest back; so a wrong order, a wrong
      hash, a pending entry, an unknown field or a foreign consumer is refused. */
  method DecodeFrozenManifest(env: Foreign, v: Json) returns (r: Option<Manifest>)
    ensures r.Some? ==> Encodes(env, r.value, v)
    ensures forall m :: Encodes(env, m, v) ==> r == Some(m)
  {
    forall m | Encodes(env, m, v)
      ensures Framed(v) && v.fields[ConsumerTaskRef].s == m.consumerTaskRef
      ensures AllDecoded(v.fields[Bindings].items, ItemDecoder(env, m.consumerTaskRef), m.bindings)
      ensures NewManifest(m.consumerTaskRef, m.bindings, []) == Some(m)
    {
      EncodedItems(env, m, v);
    }
    if !Framed(v) {
      return None;
    }
    var consumer := v.fields[ConsumerTaskRef].s;
    var bindings := DecodeItems(v.fields[Bindings].items, ItemDecoder(env, consumer));
    if bindings.None? {
      return None;
    }
    var manifest := NewManifest(consumer, bindings.value, []);
    if manifest.None? || EncodeManifest(env, manifest.value) != v {
      return None;
    }
    DecodedManifestOk(env, consumer, v.fields[Bindings].items, bindings.value, manifest.value);
    return manifest;
  }

  lemma DecodedItemOk(env: Foreign, consumer: string, item: Json, b: Binding)
    requires DecodeItem(env, consumer, item) == Some(b)
    ensures BindingOk(env, b) && b.consumerTaskRef == consumer
  {
    DecodedBindingOk(env, item, b);
  }

  lemma DecodedManifestOk(env: Foreign, consumer: string, items: seq<Json>, bindings: seq<Binding>, m: Manifest)
    requires IsText(consumer) && AllDecoded(items, ItemDecoder(env, consumer), bindings)
    requires NewManifest(consumer, bindings, []) == Some(m)
    ensures ManifestOk(env, m)
  {
    SortSorted(bindings, ByPlace);
    forall b | b in m.bindings ensures BindingOk(env, b) && b.consumerTaskRef == consumer {
      SortedMember(bindings, ByPlace, b);
      var j :| 0 <= j < |bindings| && bindings[j] == b;
      assert ItemDecoder(env, consumer)(items[j]) == Some(b);
      DecodedItemOk(env, consumer, items[j], b);
    }
  }

  lemma RefInjective(a: VersionedRef, b: VersionedRef)
    requires EncodeRef(a) == EncodeRef(b)
    ensures a == b
  {
    var (x, y) := (EncodeRef(a).fields, EncodeRef(b).fields);
    assert x[Id] == y[Id] && x[Version] == y[Version] && x[ContentHash] == y[ContentHash];
  }

  lemma IdentityInjective(a: ResourceIdentity, b: ResourceIdentity)
    requires EncodeIdentity(a) == EncodeIdentity(b)
    ensures a == b
  {
    var (x, y) := (EncodeIdentity(a).fields, EncodeIdentity(b).fields);
    assert x[Namespace] == y[Namespace] && x[Path] == y[Path];
  }

  lemma BoundInjective(a: BoundInput, b: BoundInput)
    requires EncodeBound(a) == EncodeBound(b)
    ensures a == b
  {
    var (x, y) := (EncodeBound(a).fields, EncodeBound(b).fields);
    assert x[RequirementId] == y[RequirementId] && x[ProducerResultId] == y[ProducerResultId];
    assert x[AcceptanceId] == y[AcceptanceId] && x[ArtifactId] == y[ArtifactId];
    assert x[ContentHash] == y[ContentHash] && x[SourceRevision] == y[SourceRevision];
    assert x[SchemaRef] == y[SchemaRef];
    RefInjective(a.schemaRef, b.schemaRef);
  }

  lemma RouteCarried(v: Json, a: Route, b: Route)
    requires CarriesRoute(v, a) && CarriesRoute(v, b)
    ensures a == b
  {
  }

  lemma TermsCarried(v: Json, a: Terms, b: Terms)
    requires CarriesTerms(v, a) && CarriesTerms(v, b)
    ensures a == b
  {
    PolicyRoundTrip(a.revisionPolicy);
    PolicyRoundTrip(b.revisionPolicy);
  }

  lemma PartsCarried(v: Json, a: Binding, b: Binding)
    requires CarriesParts(v, a) && CarriesParts(v, b)
    ensures a.bound == b.bound && a.sourceIdentity == b.sourceIdentity && a.producedSchema == b.producedSchema
  {
    BoundInjective(a.bound, b.bound);
    IdentityInjective(a.sourceIdentity, b.sourceIdentity);
    RefInjective(a.producedSchema, b.producedSchema);
  }

  lemma SameParts(a: Binding, b: Binding)
    requires RouteOf(a) == RouteOf(b) && TermsOf(a) == TermsOf(b)
    requires a.bound == b.bound && a.sourceIdentity == b.sourceIdentity && a.producedSchema == b.producedSchema
    ensures a == b
  {
  }

  lemma BindingInjective(a: Binding, b: Binding)
    requires EncodeBinding(a) == EncodeBinding(b)
    ensures a == b
  {
    EncodedRoute(a);
    EncodedRoute(b);
    RouteCarried(EncodeBinding(a), RouteOf(a), RouteOf(b));
    EncodedTerms(a);
    EncodedTerms(b);
    TermsCarried(EncodeBinding(a), TermsOf(a), TermsOf(b));
    EncodedParts(a);
    EncodedParts(b);
    PartsCarried(EncodeBinding(a), a, b);
    SameParts(a, b);
  }

  lemma {:induction false} BindingsInjective(a: seq<Binding>, b: seq<Binding>)
    requires Map(a, EncodeBinding) == Map(b, EncodeBinding)
    ensures a == b
  {
    assert |a| == |Map(a, EncodeBinding)| == |b|;
    forall i | 0 <= i < |a| ensures a[i] == b[i] {
      assert Map(a, EncodeBinding)[i] == Map(b, EncodeBinding)[i];
      BindingInjective(a[i], b[i]);
    }
  }

  /** Two frozen manifests with one encoding are one manifest. */
  lemma EncodingInjective(env: Foreign, m: Manifest, m': Manifest)
    requires m.IsFrozen() && m'.IsFrozen() && EncodeManifest(env, m) == EncodeManifest(env, m')
    ensures m == m'
  {
    var (x, y) := (EncodeManifest(env, m).fields, EncodeManifest(env, m').fields);
    assert x[ConsumerTaskRef] == y[ConsumerTaskRef] && x[Bindings] == y[Bindings];
    BindingsInjective(m.bindings, m'.bindings);
  }

  /** The decoder accepts what a frozen manifest is encoded to exactly when that manifest is well formed. */
  lemma DecodableIff(env: Foreign, m: Manifest)
    requires m.IsFrozen()
    ensures (exists m' :: Encodes(env, m', EncodeManifest(env, m))) <==> ManifestOk(env, m)
  {
    if m' :| Encodes(env, m', EncodeManifest(env, m)) {
      EncodingInjective(env, m, m');
    }
    if ManifestOk(env, m) {
      assert Encodes(env, m, EncodeManifest(env, m));
    }
  }

  /** Persisted, never decoded: a manifest with the source path " ./ a", which the normaliser makes of
      "./ ./ a", and would change again. */
  lemma StoredPathNotDecoded(env: Foreign, m: Manifest, b: Binding)
    requires env.normalise("./ ./ a") == " ./ a" && env.normalise(" ./ a") == " a"
    requires m.IsFrozen() && b in m.bindings && b.sourceIdentity.path == env.normalise("./ ./ a")
    ensures !exists m' :: Encodes(env, m', EncodeManifest(env, m))
  {
    DecodableIff(env, m);
    assert |" ./ a"| != |" a"|;
    assert !IdentityOk(env, b.sourceIdentity);
  }

  // ----------------------------------------------------------------------------- target rules

  datatype TargetRules = TargetRules(
    namespace: string, portPrefixes: map<string, string>, preserveSourceNamespace: bool, caseInsensitive: bool)

  function EncodePrefixes(prefixes: map<string, string>): Json {
    Obj(map f | f in Names(prefixes) :: Str(prefixes[f.name]))
  }

  function Names(prefixes: map<string, string>): (fs: set<Field>)
    ensures forall f :: f in fs <==> f.Name? && f.name in prefixes
  {
    set p | p in prefixes :: Name(p)
  }

  /** `encode_target_rules`. */
  function EncodeTargetRules(rules: TargetRules): Json {
    Obj(map[Namespace := Str(rules.namespace), PortPrefixes := EncodePrefixes(rules.portPrefixes),
            PreserveSourceNamespace := Bool(rules.preserveSourceNamespace),
            CaseInsensitive := Bool(rules.caseInsensitive)])
  }

  predicate TargetRulesOk(rules: TargetRules) {
    IsText(rules.namespace) && !Blank(rules.namespace) && "" !in rules.portPrefixes
  }

  function DecodePrefixes(v: Json): (r: Option<map<string, string>>)
    ensures r.Some? <==> v.Obj? && forall f :: f in v.fields ==> f.Name? && f.name != "" && v.fields[f].Str?
    ensures r.Some? ==> forall p :: p in r.value <==> Name(p) in v.fields
    ensures r.Some? ==> forall p :: p in r.value ==> v.fields[Name(p)] == Str(r.value[p])
  {
    if v.Obj? && forall f :: f in v.fields ==> f.Name? && f.name != "" && v.fields[f].Str?
    then Some(map f | f in v.fields :: f.name := v.fields[f].s)
    else None
  }

  /** `decode_target_rules`. */
  function DecodeTargetRules(v: Json): (r: Option<TargetRules>)
    ensures r.Some? ==> EncodeTargetRules(r.value) == v
  {
    var prefixesJson :- Get(v, PortPrefixes);
    var prefixes :- DecodePrefixes(prefixesJson);
    var namespace :- GetText(v, Namespace, IsText);
    var preserve :- GetBool(v, PreserveSourceNamespace);
    var folding :- GetBool(v, CaseInsensitive);
    var rules := TargetRules(namespace, prefixes, preserve, folding);
    if Blank(namespace) || EncodeTargetRules(rules) != v then None else Some(rules)
  }

  lemma PrefixesRoundTrip(prefixes: map<string, string>)
    requires "" !in prefixes
    ensures DecodePrefixes(EncodePrefixes(prefixes)) == Some(prefixes)
  {
    var fields := EncodePrefixes(prefixes).fields;
    assert forall p :: p in prefixes <==> Name(p) in fields;
    var back := DecodePrefixes(EncodePrefixes(prefixes)).value;
    forall p | p in prefixes ensures back[p] == prefixes[p] {
      assert fields[Name(p)] == Str(prefixes[p]);
    }
    assert back == prefixes;
  }

  lemma GoodRulesRoundTrip(rules: TargetRules)
    requires TargetRulesOk(rules)
    ensures DecodeTargetRules(EncodeTargetRules(rules)) == Some(rules)
  {
    var v := EncodeTargetRules(rules);
    PrefixesRoundTrip(rules.portPrefixes);
    assert Get(v, PortPrefixes) == Some(EncodePrefixes(rules.portPrefixes));
    assert GetText(v, Namespace, IsText) == Some(rules.namespace);
    assert GetBool(v, PreserveSourceNamespace) == Some(rules.preserveSourceNamespace);
    assert GetBool(v, CaseInsensitive) == Some(rules.caseInsensitive);
  }

  lemma BadRulesRefused(rules: TargetRules)
    requires !TargetRulesOk(rules)
    ensures DecodeTargetRules(EncodeTargetRules(rules)).None?
  {
    var v := EncodeTargetRules(rules);
    assert Get(v, PortPrefixes) == Some(EncodePrefixes(rules.portPrefixes));
    if "" in rules.portPrefixes {
      assert Name("") in EncodePrefixes(rules.portPrefixes).fields;
      assert DecodePrefixes(EncodePrefixes(rules.portPrefixes)).None?;
    } else if !IsText(rules.namespace) {
      assert GetText(v, Namespace, IsText).None?;
    } else {
      assert GetText(v, Namespace, IsText) == Some(rules.namespace);
    }
  }

  /** Decoding the encoding of target rules gives them back if they are well formed and refuses them
      otherwise; the decoder's own contract is the other direction. */
  lemma TargetRulesRoundTrip(rules: TargetRules)
    ensures DecodeTargetRules(EncodeTargetRules(rules)) == if TargetRulesOk(rules) then Some(rules) else None
  {
    if TargetRulesOk(rules) {
      GoodRulesRoundTrip(rules);
    } else {
      BadRulesRefused(rules);
    }
  }
}
