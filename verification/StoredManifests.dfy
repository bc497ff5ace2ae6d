/** Which manifests survive being stored, and in which order manifests and refusals are listed, said over the
    fields and their characters.
 */
module StoredManifests {
  import opened InputModel
  import opened Ordering
  import opened Sequences
  import opened Resolution
  import opened ResolutionFacts
  import opened ResolverExactness
  import opened ResolverOrdering
  import opened ManifestCodec
  import opened TextLines

  // ----------------------------------------------------------------------- the canonical order

  /** By input port, then by ordinal, then by id. */
  predicate PlaceBefore(a: Binding, b: Binding) {
    if a.inputPort != b.inputPort then TextLe(a.inputPort, b.inputPort)
    else if a.portOrdinal != b.portOrdinal then a.portOrdinal < b.portOrdinal
    else TextLe(a.bindingId, b.bindingId)
  }

  lemma PlaceIff(a: Binding, b: Binding)
    ensures KeyLe(ByPlace(a), ByPlace(b)) <==> PlaceBefore(a, b)
  {
    TripleOrder(Text(a.inputPort), Num(a.portOrdinal), Text(a.bindingId),
                Text(b.inputPort), Num(b.portOrdinal), Text(b.bindingId));
  }

  /** By input port, then by requirement. */
  predicate WaitsBefore(a: SymbolicBinding, b: SymbolicBinding) {
    if a.inputPort != b.inputPort then TextLe(a.inputPort, b.inputPort) else TextLe(a.requirementId, b.requirementId)
  }

  function PortText(p: Problem): string { if p.inputPort == None then "" else p.inputPort.value }

  /** By kind, then by port, none before any, then by text. */
  predicate ReportedBefore(a: Problem, b: Problem) {
    if KindText(a.kind) != KindText(b.kind) then TextLe(KindText(a.kind), KindText(b.kind))
    else if PortText(a) != PortText(b) then TextLe(PortText(a), PortText(b))
    else TextLe(a.detail, b.detail)
  }

  lemma SeverityIff(a: Problem, b: Problem)
    ensures KeyLe(BySeverity(a), BySeverity(b)) <==> ReportedBefore(a, b)
  {
    TripleOrder(Text(KindText(a.kind)), Text(PortText(a)), Text(a.detail),
                Text(KindText(b.kind)), Text(PortText(b)), Text(b.detail));
  }

  lemma BindingsInOrder(bs: seq<Binding>)
    ensures var sorted := Sort(bs, ByPlace); forall i, j :: 0 <= i < j < |sorted| ==> PlaceBefore(sorted[i], sorted[j])
  {
    var sorted := Sort(bs, ByPlace);
    SortSorted(bs, ByPlace);
    forall i, j | 0 <= i < j < |sorted| ensures PlaceBefore(sorted[i], sorted[j]) {
      PlaceIff(sorted[i], sorted[j]);
    }
  }

  lemma PendingInOrder(ps: seq<SymbolicBinding>)
    ensures var sorted := Sort(ps, ByPending);
      forall i, j :: 0 <= i < j < |sorted| ==> WaitsBefore(sorted[i], sorted[j])
  {
    var sorted := Sort(ps, ByPending);
    SortSorted(ps, ByPending);
    forall i, j | 0 <= i < j < |sorted| ensures WaitsBefore(sorted[i], sorted[j]) {
      PairOrder(Text(sorted[i].inputPort), Text(sorted[i].requirementId),
                Text(sorted[j].inputPort), Text(sorted[j].requirementId));
    }
  }

  /** The bindings of a returned manifest stand by port, ordinal and id, its pending records by port and
      requirement. */
  lemma ManifestInOrder(q: Question, rs: seq<DataRequirement>, accepted: AcceptedIndex)
    requires HasManifest(Resolve(q, rs, accepted))
    ensures var m := Resolve(q, rs, accepted).manifest.value;
      && (forall i, j :: 0 <= i < j < |m.bindings| ==> PlaceBefore(m.bindings[i], m.bindings[j]))
      && (forall i, j :: 0 <= i < j < |m.pending| ==> WaitsBefore(m.pending[i], m.pending[j]))
  {
    var fs := FindingsOf(q, rs, accepted);
    ManifestFindings(q, rs, accepted);
    BindingsInOrder(AllBindings(q, fs));
    PendingInOrder(PendingOf(fs));
  }

  ghost predicate InOrder(ps: seq<Problem>) {
    forall i, j :: 0 <= i < j < |ps| ==> ReportedBefore(ps[i], ps[j])
  }

  lemma SortedInOrder(ps: seq<Problem>)
    ensures InOrder(Sort(ps, BySeverity))
  {
    var sorted := Sort(ps, BySeverity);
    SortSorted(ps, BySeverity);
    forall i, j | 0 <= i < j < |sorted| ensures ReportedBefore(sorted[i], sorted[j]) {
      SeverityIff(sorted[i], sorted[j]);
    }
  }

  lemma ConcludedProblems(q: Question, fs: seq<Finding>)
    ensures Conclude(q, fs).Answer? ==> Conclude(q, fs).problems == Sort(AllProblems(q, fs), BySeverity)
  {
  }

  /** The refusals of every answer stand by kind, port and text. */
  lemma ProblemsInOrder(q: Question, rs: seq<DataRequirement>, accepted: AcceptedIndex)
    ensures Resolve(q, rs, accepted).Answer? ==> InOrder(Resolve(q, rs, accepted).problems)
  {
    var fs := FindingsOf(q, rs, accepted);
    ConcludedProblems(q, fs);
    SortedInOrder(AllProblems(q, fs));
  }

  // ----------------------------------------------------------------------- what can be stored

  predicate ShortText(t: string) { 1 <= |t| <= 4096 }

  /** Not blank, at most 512 characters, and no control character but tab, line feed and carriage return. */
  predicate PlainIdentifier(t: string) {
    && 1 <= |t| <= 512 && (exists i :: 0 <= i < |t| && !IsSpace(t[i]))
    && forall i :: 0 <= i < |t| ==>
         t[i] == '\t' || t[i] == '\n' || t[i] == '\r' || (t[i] as int >= 32 && t[i] as int != 127)
  }

  /** Sixty-four lower-case hexadecimal digits. */
  predicate HexDigest(t: string) { |t| == 64 && forall i :: 0 <= i < |t| ==> t[i] in "0123456789abcdef" }

  predicate SafeIndex(n: int) { 0 <= n < 9007199254740992 }

  predicate StorableRef(v: VersionedRef) {
    PlainIdentifier(v.id) && 1 <= v.version && SafeIndex(v.version) && HexDigest(v.contentHash)
  }

  /** A namespace and a path that are not blank, the path as the normaliser leaves it. */
  predicate StorableIdentity(env: Foreign, i: ResourceIdentity) {
    && ShortText(i.namespace) && (exists k :: 0 <= k < |i.namespace| && !IsSpace(i.namespace[k]))
    && ShortText(i.path) && (exists k :: 0 <= k < |i.path| && !IsSpace(i.path[k])) && env.normalise(i.path) == i.path
  }

  predicate StorableBinding(env: Foreign, b: Binding) {
    && ShortText(b.bindingId) && ShortText(b.producerTaskRef) && ShortText(b.producerOccurrence)
    && ShortText(b.outputPort) && ShortText(b.consumerTaskRef) && ShortText(b.inputPort) && ShortText(b.readPolicy)
    && ShortText(b.freshnessPolicy) && ShortText(b.disclosureScope)
    && (b.converter != None ==> ShortText(b.converter.value)) && (b.witnessId != None ==> ShortText(b.witnessId.value))
    && PlainIdentifier(b.bound.requirementId) && PlainIdentifier(b.bound.producerResultId)
    && PlainIdentifier(b.bound.acceptanceId) && PlainIdentifier(b.bound.artifactId)
    && PlainIdentifier(b.bound.sourceRevision) && HexDigest(b.bound.contentHash) && StorableRef(b.bound.schemaRef)
    && StorableRef(b.producedSchema) && StorableIdentity(env, b.sourceIdentity)
    && SafeIndex(b.supportRevision) && SafeIndex(b.portOrdinal)
  }

  /** Every field within its bounds, every binding naming the manifest's consumer, the bindings in order, with ids of
      their own. */
  ghost predicate Storable(env: Foreign, m: Manifest) {
    && ShortText(m.consumerTaskRef)
    && (forall b :: b in m.bindings ==> StorableBinding(env, b) && b.consumerTaskRef == m.consumerTaskRef)
    && (forall i, j :: 0 <= i < j < |m.bindings| ==> PlaceBefore(m.bindings[i], m.bindings[j]))
    && (forall i, j :: 0 <= i < j < |m.bindings| ==> m.bindings[i].bindingId != m.bindings[j].bindingId)
  }

  lemma IdentifierIff(t: string)
    ensures IsIdentifier(t) <==> PlainIdentifier(t)
  {
    if IsIdentifier(t) {
      var c :| c in t && !IsSpace(c);
      var i :| 0 <= i < |t| && t[i] == c;
      assert forall i :: 0 <= i < |t| ==> t[i] in t;
    }
    if PlainIdentifier(t) {
      var i :| 0 <= i < |t| && !IsSpace(t[i]);
      assert t[i] in t;
    }
  }

  lemma HashIff(t: string)
    ensures IsHash(t) <==> HexDigest(t)
  {
    forall c: char ensures ('0' <= c <= '9' || 'a' <= c <= 'f') <==> c in "0123456789abcdef" {
    }
    assert IsHash(t) ==> forall i :: 0 <= i < |t| ==> t[i] in t;
  }

  lemma BlankIff(t: string)
    ensures !Blank(t) <==> exists k :: 0 <= k < |t| && !IsSpace(t[k])
  {
    if !Blank(t) {
      var c :| c in t && !IsSpace(c);
      var k :| 0 <= k < |t| && t[k] == c;
    }
    if k :| 0 <= k < |t| && !IsSpace(t[k]) {
      assert t[k] in t;
    }
  }

  lemma RefIff(v: VersionedRef)
    ensures RefOk(v) <==> StorableRef(v)
  {
    IdentifierIff(v.id);
    HashIff(v.contentHash);
  }

  lemma BoundIff(b: BoundInput)
    ensures BoundOk(b) <==>
      && PlainIdentifier(b.requirementId) && PlainIdentifier(b.producerResultId) && PlainIdentifier(b.acceptanceId)
      && PlainIdentifier(b.artifactId) && HexDigest(b.contentHash) && StorableRef(b.schemaRef)
      && PlainIdentifier(b.sourceRevision)
  {
    IdentifierIff(b.requirementId);
    IdentifierIff(b.producerResultId);
    IdentifierIff(b.acceptanceId);
    IdentifierIff(b.artifactId);
    IdentifierIff(b.sourceRevision);
    HashIff(b.contentHash);
    RefIff(b.schemaRef);
  }

  lemma BindingIff(env: Foreign, b: Binding)
    ensures BindingOk(env, b) <==> StorableBinding(env, b)
  {
    BoundIff(b.bound);
    RefIff(b.producedSchema);
    BlankIff(b.sourceIdentity.namespace);
    BlankIff(b.sourceIdentity.path);
  }

  lemma IdsDistinctIff(bs: seq<Binding>)
    ensures !Repeats(Map(bs, BindingIdOf)) <==>
              forall i, j :: 0 <= i < j < |bs| ==> bs[i].bindingId != bs[j].bindingId
  {
    RepeatsDistinct(Map(bs, BindingIdOf));
    var ids := Map(bs, BindingIdOf);
    assert forall i :: 0 <= i < |bs| ==> ids[i] == bs[i].bindingId;
    if Distinct(ids) {
      forall i, j | 0 <= i < j < |bs| ensures bs[i].bindingId != bs[j].bindingId {
        assert ids[i] != ids[j];
      }
    }
  }

  lemma OrderIff(bs: seq<Binding>)
    ensures Sorted(bs, ByPlace) <==> forall i, j :: 0 <= i < j < |bs| ==> PlaceBefore(bs[i], bs[j])
  {
    forall i, j | 0 <= i < j < |bs| ensures KeyLe(ByPlace(bs[i]), ByPlace(bs[j])) <==> PlaceBefore(bs[i], bs[j]) {
      PlaceIff(bs[i], bs[j]);
    }
  }

  lemma StorableIff(env: Foreign, m: Manifest)
    requires m.IsFrozen()
    ensures ManifestOk(env, m) <==> Storable(env, m)
  {
    OrderIff(m.bindings);
    IdsDistinctIff(m.bindings);
    forall b | b in m.bindings ensures BindingOk(env, b) <==> StorableBinding(env, b) {
      BindingIff(env, b);
    }
  }

  /** The stored form of a frozen manifest is read back exactly when every one of its fields can be stored. */
  lemma ReadBackIff(env: Foreign, m: Manifest)
    requires m.IsFrozen()
    ensures (exists m' :: Encodes(env, m', EncodeManifest(env, m))) <==> Storable(env, m)
  {
    DecodableIff(env, m);
    StorableIff(env, m);
  }
}
