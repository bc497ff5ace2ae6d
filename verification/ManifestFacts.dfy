/** What a returned manifest records, which revisions it may carry, when its witnesses allow its use, and which
    refusals are reported, said over the fields of the records alone.
 */
module ManifestFacts {
  import opened InputModel
  import opened Ordering
  import opened Sequences
  import opened Resolution
  import opened ResolutionFacts
  import opened ResolverExactness
  import opened ResolverOrdering
  import opened ManifestUse

  // ------------------------------------------------------------------------------- lookups

  /** Of two ports declared under one key the later counts. */
  lemma {:induction false} PortLookedUp(ports: seq<PortSpec>, key: string)
    ensures PortOf(ports, key).None? ==> forall i :: 0 <= i < |ports| ==> ports[i].portKey != key
    ensures PortOf(ports, key).Some? ==> exists i ::
      0 <= i < |ports| && ports[i] == PortOf(ports, key).value && ports[i].portKey == key
      && forall j :: i < j < |ports| ==> ports[j].portKey != key
    decreases |ports|
  {
    var n := |ports| - 1;
    if ports != [] && ports[n].portKey != key {
      PortLookedUp(ports[..n], key);
      if PortOf(ports, key).Some? {
        var i :| 0 <= i < n && ports[..n][i] == PortOf(ports, key).value && ports[..n][i].portKey == key
          && forall j :: i < j < n ==> ports[..n][j].portKey != key;
        assert ports[i] == PortOf(ports, key).value;
        assert forall j :: i < j < n ==> ports[j] == ports[..n][j];
      } else {
        assert forall i :: 0 <= i < n ==> ports[i] == ports[..n][i];
      }
    }
  }

  /** Of two rules for one pair of schemas the earlier counts. */
  lemma {:induction false} RuleLookedUp(rules: seq<SchemaRule>, produced: VersionedRef, required: VersionedRef)
    ensures MatchRule(rules, produced, required).Some? ==> exists i ::
      0 <= i < |rules| && rules[i] == MatchRule(rules, produced, required).value
      && rules[i].produced == produced && rules[i].required == required
      && forall j :: 0 <= j < i ==> rules[j].produced != produced || rules[j].required != required
  {
    if rules != [] && !(rules[0].produced == produced && rules[0].required == required) {
      RuleLookedUp(rules[1..], produced, required);
      if MatchRule(rules, produced, required).Some? {
        var i :| 0 <= i < |rules[1..]| && rules[1..][i] == MatchRule(rules, produced, required).value
          && rules[1..][i].produced == produced && rules[1..][i].required == required
          && forall j :: 0 <= j < i ==> rules[1..][j].produced != produced || rules[1..][j].required != required;
        assert rules[i + 1] == rules[1..][i];
        assert forall j :: 0 < j < i + 1 ==> rules[j] == rules[1..][j - 1];
      }
    }
  }

  /** Of two explicit orders for one port the earlier counts. */
  lemma {:induction false} OrderLookedUp(orders: seq<PortOrder>, port: string)
    ensures ExplicitOrder(orders, port).None? ==> forall i :: 0 <= i < |orders| ==> orders[i].inputPort != port
    ensures ExplicitOrder(orders, port).Some? ==> exists i ::
      0 <= i < |orders| && orders[i].requirementIds == ExplicitOrder(orders, port).value
      && orders[i].inputPort == port && forall j :: 0 <= j < i ==> orders[j].inputPort != port
  {
    if orders != [] && orders[0].inputPort != port {
      OrderLookedUp(orders[1..], port);
      if ExplicitOrder(orders, port).Some? {
        var i :| 0 <= i < |orders[1..]| && orders[1..][i].requirementIds == ExplicitOrder(orders, port).value
          && orders[1..][i].inputPort == port && forall j :: 0 <= j < i ==> orders[1..][j].inputPort != port;
        assert orders[i + 1] == orders[1..][i];
        assert forall j :: 0 < j < i + 1 ==> orders[j] == orders[1..][j - 1];
      } else {
        assert forall i :: 0 < i < |orders| ==> orders[i] == orders[1..][i - 1];
      }
    }
  }

  // ------------------------------------------------------------------- what a binding records

  /** The requirement and the accepted output that a binding stands for, field by field. */
  ghost predicate Records(q: Question, r: DataRequirement, c: AcceptedOutput, b: Binding) {
    && b.bound.requirementId == r.requirementId && b.inputPort == r.inputPort && b.bound.schemaRef == r.schemaRef
    && b.readPolicy == r.assurancePolicy && b.freshnessPolicy == r.freshnessPolicy
    && b.revisionPolicy == r.revisionPolicy
    && b.producerOccurrence == c.producerOccurrence && b.producerTaskRef == c.producerTaskRef
    && b.outputPort == c.outputPort && b.bound.producerResultId == c.producerResultId
    && b.bound.acceptanceId == c.acceptanceId && b.supportRevision == c.supportRevision
    && b.bound.artifactId == c.artifactId && b.bound.contentHash == c.contentHash
    && b.producedSchema == c.schemaRef && b.bound.sourceRevision == c.sourceRevision
    && b.sourceIdentity == c.sourceIdentity && b.disclosureScope == c.disclosureScope
    && b.provisional == c.provisional
    && b.consumerTaskRef == q.consumer.taskId
    && b.bindingId == q.naming.bindingId(BindingIdentity(b.bound.requirementId, b.consumerTaskRef, b.inputPort,
                                                         b.bound.artifactId, b.bound.contentHash,
                                                         b.bound.sourceRevision))
    && (b.requiresReacceptance <==>
          b.revisionPolicy == FollowAuthorized
          && !(r.requirementId in q.policy.pinned && q.policy.pinned[r.requirementId] == b.bound.sourceRevision))
    && (b.producedSchema == b.bound.schemaRef ==> b.converter == None)
    && (b.producedSchema != b.bound.schemaRef ==> Converts(q.policy.schemaRules, b))
    && (b.bound.acceptanceId !in q.witnesses ==> b.witnessId == None)
    && (b.bound.acceptanceId in q.witnesses ==> b.witnessId == Some(q.witnesses[b.bound.acceptanceId].witnessId))
  }

  /** The converter is that of the first rule declared for the two schemas. */
  ghost predicate Converts(rules: seq<SchemaRule>, b: Binding) {
    exists i :: 0 <= i < |rules| && rules[i].produced == b.producedSchema && rules[i].required == b.bound.schemaRef
      && rules[i].converter == b.converter
      && forall j :: 0 <= j < i ==> rules[j].produced != b.producedSchema || rules[j].required != b.bound.schemaRef
  }

  /** The requirement feeds this occurrence, from this producer port, which has finished. */
  ghost predicate Asks(q: Question, accepted: AcceptedIndex, r: DataRequirement, c: AcceptedOutput) {
    && r.consumerOccurrence == q.occurrence && r.producerOccurrence in accepted.completed
    && c.producerOccurrence == r.producerOccurrence && c.outputPort == r.outputPort
    && (exists spec :: spec in q.consumer.inputPorts && spec.portKey == r.inputPort && spec.schemaRef == r.schemaRef)
  }

  /** Whatever the order of the checks, a binding of a returned manifest records one requirement and one accepted
      output faithfully. */
  lemma BindingRecords(q: Question, rs: seq<DataRequirement>, accepted: AcceptedIndex, b: Binding)
    requires HasManifest(Resolve(q, rs, accepted)) && b in Resolve(q, rs, accepted).manifest.value.bindings
    ensures exists r, c :: r in rs && c in accepted.outputs && Asks(q, accepted, r, c) && Records(q, r, c, b)
              && MayTake(q.policy, accepted, r, c.sourceRevision)
  {
    var r, c := Behind(q, rs, accepted, b);
    PairRecorded(q, r, PortOf(q.consumer.inputPorts, r.inputPort).value, c, b);
    PortLookedUp(q.consumer.inputPorts, r.inputPort);
  }

  lemma PairRecorded(q: Question, r: DataRequirement, spec: PortSpec, c: AcceptedOutput, b: Binding)
    requires Permitted(q, r, spec, c) && b == MakeBinding(q, EntryFor(q, r, c), b.portOrdinal)
    ensures Records(q, r, c, b) && r.schemaRef == spec.schemaRef
  {
    RuleLookedUp(q.policy.schemaRules, c.schemaRef, r.schemaRef);
    MatchRuleIff(q.policy.schemaRules, c.schemaRef, r.schemaRef);
  }

  // --------------------------------------------------------------------- which revision it carries

  /** The revision of a binding: a pinned requirement carries its pin, whatever is authorised; one that follows
      authorised revisions carries the authorised one if there is one, and otherwise its pin. */
  lemma RevisionCarried(q: Question, rs: seq<DataRequirement>, accepted: AcceptedIndex, r: DataRequirement, b: Binding)
    requires forall i, j :: 0 <= i < j < |rs| ==> rs[i].requirementId != rs[j].requirementId
    requires HasManifest(Resolve(q, rs, accepted)) && b in Resolve(q, rs, accepted).manifest.value.bindings
    requires r in rs && b.bound.requirementId == r.requirementId
    ensures var (pinned, authorized) := (q.policy.pinned, accepted.authorized);
      var place := (r.producerOccurrence, r.outputPort);
      && (r.revisionPolicy == Pinned && r.requirementId in pinned ==>
            b.bound.sourceRevision == pinned[r.requirementId])
      && (r.revisionPolicy == FollowAuthorized && place in authorized ==>
            b.bound.sourceRevision == authorized[place])
      && (r.revisionPolicy == FollowAuthorized && place !in authorized && r.requirementId in pinned ==>
            b.bound.sourceRevision == pinned[r.requirementId])
  {
    var r', c := Behind(q, rs, accepted, b);
    assert r' == r;
  }

  /** Every revision that the policy leaves is bound: whatever was accepted at the place of a ready requirement,
      at the revision just said, or at any revision without a pin and an authorisation, is in the manifest. */
  lemma EveryRevisionBound(q: Question, rs: seq<DataRequirement>, accepted: AcceptedIndex, r: DataRequirement,
                           c: AcceptedOutput)
    requires HasManifest(Resolve(q, rs, accepted)) && r in rs && c in accepted.outputs && Asks(q, accepted, r, c)
    requires var (pinned, authorized) := (q.policy.pinned, accepted.authorized);
      var place := (r.producerOccurrence, r.outputPort);
      || (r.revisionPolicy == Pinned && r.requirementId in pinned && c.sourceRevision == pinned[r.requirementId])
      || (r.revisionPolicy == Pinned && r.requirementId !in pinned)
      || (r.revisionPolicy == FollowAuthorized && place in authorized && c.sourceRevision == authorized[place])
      || (r.revisionPolicy == FollowAuthorized && place !in authorized && r.requirementId in pinned
          && c.sourceRevision == pinned[r.requirementId])
      || (r.revisionPolicy == FollowAuthorized && place !in authorized && r.requirementId !in pinned)
    ensures exists b :: b in Resolve(q, rs, accepted).manifest.value.bindings && Records(q, r, c, b)
  {
    var bs := Resolve(q, rs, accepted).manifest.value.bindings;
    ResolverExact(q, rs, accepted);
    assert RequirementOk(q, accepted, r);
    FilterMember(accepted.outputs, OfferedTo(q, accepted, r), c);
    PairListed(q, rs, accepted, r, c);
    var b := BindingOf(q, bs, Pairs(q, rs, accepted), EntryFor(q, r, c));
    PairRecorded(q, r, PortOf(q.consumer.inputPorts, r.inputPort).value, c, b);
  }

  lemma PairListed(q: Question, rs: seq<DataRequirement>, accepted: AcceptedIndex, r: DataRequirement,
                   c: AcceptedOutput)
    requires IsPair(q, rs, accepted, r, c)
    ensures EntryFor(q, r, c) in Pairs(q, rs, accepted)
  {
    var offers := Offers(q, accepted, r);
    var i :| 0 <= i < |offers| && offers[i] == c;
    assert Map(offers, EntryMaker(q, r))[i] == EntryFor(q, r, c);
    assert EntryFor(q, r, c) in Pairing(q, accepted)(r);
    FlatMapMember(rs, Pairing(q, accepted), EntryFor(q, r, c));
  }

  lemma BindingOf(q: Question, bs: seq<Binding>, pairs: seq<Entry>, e: Entry) returns (b: Binding)
    requires SameElements(Map(bs, Unranked), Map(pairs, AtZero(q))) && e in pairs
    ensures b in bs && b == MakeBinding(q, e, b.portOrdinal)
  {
    SameMembers(Map(bs, Unranked), Map(pairs, AtZero(q)));
    var i :| 0 <= i < |pairs| && pairs[i] == e;
    assert Map(pairs, AtZero(q))[i] in Map(bs, Unranked);
    var j :| 0 <= j < |bs| && Map(bs, Unranked)[j] == MakeBinding(q, e, 0);
    b := bs[j];
    assert Unranked(b) == MakeBinding(q, e, 0);
  }

  // ----------------------------------------------------------------------- the declared order

  /** One output stands before another by the rule that a set port declares. */
  predicate StandsBefore(spec: PortSpec, c: AcceptedOutput, c': AcceptedOutput) {
    match spec.ordering
    case Some(ByProducerOrdinal) => c.producerOrdinal < c'.producerOrdinal
    case Some(ByKey) =>
      var key := if spec.orderKey == None then "" else spec.orderKey.value;
      && key in c.orderKeys && key in c'.orderKeys
      && c.orderKeys[key] != c'.orderKeys[key] && TextLe(c.orderKeys[key], c'.orderKeys[key])
    case _ => true
  }

  function RequirementIdOf(b: Binding): string { b.bound.requirementId }

  /** The output of an identity that was accepted once is the only one that is recognised. */
  lemma OnlyMatch(outputs: seq<AcceptedOutput>, p: AcceptedOutput -> bool, c: AcceptedOutput, x: AcceptedOutput)
    requires |Filter(outputs, p)| == 1 && c in outputs && p(c) && x in outputs && p(x)
    ensures x == c
  {
    FilterMember(outputs, p, c);
    FilterMember(outputs, p, x);
    assert Filter(outputs, p) == [Filter(outputs, p)[0]];
  }

  lemma PairAccepted(q: Question, rs: seq<DataRequirement>, accepted: AcceptedIndex, port: string, e: Entry)
    requires e in PairsAt(q, rs, accepted, port)
    ensures e.candidate in accepted.outputs && OfferedTo(q, accepted, e.requirement)(e.candidate)
    ensures e == EntryFor(q, e.requirement, e.candidate)
  {
    FilterMember(Pairs(q, rs, accepted), FeedsPort(port), e);
    PairOrigin(q, rs, accepted, e);
    FilterMember(accepted.outputs, OfferedTo(q, accepted, e.requirement), e.candidate);
  }

  lemma ListedEntry(q: Question, rs: seq<DataRequirement>, accepted: AcceptedIndex, port: string, e: Entry, b: Binding,
                    c: AcceptedOutput)
    requires HasManifest(Resolve(q, rs, accepted)) && b in Resolve(q, rs, accepted).manifest.value.bindings
    requires e in PairsAt(q, rs, accepted, port) && b == MakeBinding(q, e, b.portOrdinal)
    requires c in accepted.outputs && Matching(b)(c)
    ensures c == e.candidate
  {
    PairAccepted(q, rs, accepted, port, e);
    AcceptedOnce(q, rs, accepted, b);
    OnlyMatch(accepted.outputs, Matching(b), e.candidate, c);
  }

  lemma PositionsCompared(q: Question, spec: PortSpec, e: Entry, e': Entry)
    requires spec.ordering.Some? && PositionKey(q, spec, spec.ordering.value, e).Some?
    requires PositionKey(q, spec, spec.ordering.value, e').Some?
    requires KeyLt(Position(q, spec)(e), Position(q, spec)(e'))
    ensures StandsBefore(spec, e.candidate, e'.candidate)
    ensures spec.ordering == Some(Explicit) ==>
      var declared := ExplicitOrder(q.policy.explicitOrders, spec.portKey);
      declared.Some? && IndexOf(declared.value, IdOf(e)) < IndexOf(declared.value, IdOf(e'))
  {
    AtomOrder(PositionKey(q, spec, spec.ordering.value, e).value, PositionKey(q, spec, spec.ordering.value, e').value);
  }

  /** The pairs of a set port, in the order in which it lists them. */
  function ListedPairs(q: Question, rs: seq<DataRequirement>, accepted: AcceptedIndex, spec: PortSpec): seq<Entry> {
    Sort(PairsAt(q, rs, accepted, spec.portKey), Position(q, spec))
  }

  lemma PairsSettle(q: Question, rs: seq<DataRequirement>, accepted: AcceptedIndex, spec: PortSpec)
    requires HasManifest(Resolve(q, rs, accepted)) && PortOf(q.consumer.inputPorts, spec.portKey) == Some(spec)
    ensures Settleable(q, spec, PairsAt(q, rs, accepted, spec.portKey))
  {
    ResolverExact(q, rs, accepted);
    assert PortsSettle(q, rs, accepted);
  }

  lemma ListedSettle(q: Question, rs: seq<DataRequirement>, accepted: AcceptedIndex, spec: PortSpec)
    requires HasManifest(Resolve(q, rs, accepted)) && PortOf(q.consumer.inputPorts, spec.portKey) == Some(spec)
    ensures Settleable(q, spec, ListedPairs(q, rs, accepted, spec))
    ensures forall e :: e in ListedPairs(q, rs, accepted, spec) ==> e in PairsAt(q, rs, accepted, spec.portKey)
  {
    var pairs := PairsAt(q, rs, accepted, spec.portKey);
    PairsSettle(q, rs, accepted, spec);
    SortElements(pairs, Position(q, spec));
    SortMembers(pairs, Position(q, spec));
    SettleableReorder(q, spec, pairs, ListedPairs(q, rs, accepted, spec));
  }

  lemma PortListing(q: Question, rs: seq<DataRequirement>, accepted: AcceptedIndex, spec: PortSpec)
    requires HasManifest(Resolve(q, rs, accepted)) && PortOf(q.consumer.inputPorts, spec.portKey) == Some(spec)
    ensures var listed := ListedPairs(q, rs, accepted, spec);
      && ForPort(Resolve(q, rs, accepted).manifest.value, spec.portKey) == Numbered(q, listed)
      && StrictlySorted(listed, Position(q, spec))
  {
    ForPortExact(q, rs, accepted, spec.portKey);
  }

  /** The order in which a set port lists its inputs: by rising producer ordinal, or by rising text under the
      port's order key, of the outputs that were bound. */
  lemma ListedByDeclaredRule(q: Question, rs: seq<DataRequirement>, accepted: AcceptedIndex, spec: PortSpec,
                             i: nat, j: nat, c: AcceptedOutput, c': AcceptedOutput)
    requires HasManifest(Resolve(q, rs, accepted)) && spec.cardinality.Many?
    requires PortOf(q.consumer.inputPorts, spec.portKey) == Some(spec)
    requires var bs := ForPort(Resolve(q, rs, accepted).manifest.value, spec.portKey);
      && i < j < |bs| && c in accepted.outputs && c' in accepted.outputs
      && Matching(bs[i])(c) && Matching(bs[j])(c')
    ensures StandsBefore(spec, c, c')
    ensures var bs := ForPort(Resolve(q, rs, accepted).manifest.value, spec.portKey);
      bs[i].portOrdinal == i && bs[j].portOrdinal == j
  {
    var m := Resolve(q, rs, accepted).manifest.value;
    var bs := ForPort(m, spec.portKey);
    var listed := ListedPairs(q, rs, accepted, spec);
    PortListing(q, rs, accepted, spec);
    ListedSettle(q, rs, accepted, spec);
    assert listed[i] in listed && listed[j] in listed;
    FilterMember(m.bindings, OnPort(spec.portKey), bs[i]);
    FilterMember(m.bindings, OnPort(spec.portKey), bs[j]);
    ListedEntry(q, rs, accepted, spec.portKey, listed[i], bs[i], c);
    ListedEntry(q, rs, accepted, spec.portKey, listed[j], bs[j], c');
    PositionsCompared(q, spec, listed[i], listed[j]);
  }

  /** Rising positions that fill 0..n-1 are those numbers. */
  lemma {:induction false} RisingFills(at: seq<nat>, k: nat)
    requires k < |at|
    requires forall i, j :: 0 <= i < j < |at| ==> at[i] < at[j]
    requires forall i :: 0 <= i < |at| ==> at[i] < |at|
    ensures at[k] == k
  {
    RisingFrom(at, 0, k);
    RisingFrom(at, k, |at| - 1);
  }

  lemma {:induction false} RisingFrom(at: seq<nat>, i: nat, k: nat)
    requires i <= k < |at|
    requires forall i, j :: 0 <= i < j < |at| ==> at[i] < at[j]
    ensures at[k] - at[i] >= k - i
    decreases k - i
  {
    if i < k {
      RisingFrom(at, i, k - 1);
      assert at[k - 1] < at[k];
    }
  }

  /** On a port with an explicit order the manifest lists the requirements exactly as declared. */
  lemma ListedAsDeclared(q: Question, rs: seq<DataRequirement>, accepted: AcceptedIndex, spec: PortSpec)
    requires HasManifest(Resolve(q, rs, accepted)) && spec.cardinality.Many? && spec.ordering == Some(Explicit)
    requires PortOf(q.consumer.inputPorts, spec.portKey) == Some(spec)
    ensures var bs := ForPort(Resolve(q, rs, accepted).manifest.value, spec.portKey);
      bs != [] ==>
        var declared := ExplicitOrder(q.policy.explicitOrders, spec.portKey);
        declared == Some(Map(bs, RequirementIdOf))
  {
    var listed := ListedPairs(q, rs, accepted, spec);
    PortListing(q, rs, accepted, spec);
    ListedSettle(q, rs, accepted, spec);
    NumberedIds(q, listed);
    if listed != [] {
      ExplicitlyListed(q, spec, listed);
    }
  }

  /** Two arrangements of distinct texts in one rising order are one. */
  lemma RisingArrangement(declared: seq<string>, ids: seq<string>)
    requires SameElements(declared, ids)
    requires forall i, j :: 0 <= i < j < |ids| ==> IndexOf(declared, ids[i]) < IndexOf(declared, ids[j])
    ensures declared == ids
  {
    SameMembers(declared, ids);
    assert |multiset(declared)| == |multiset(ids)|;
    var at := seq(|ids|, k requires 0 <= k < |ids| => IndexOf(declared, ids[k]));
    forall k | 0 <= k < |ids| ensures declared[k] == ids[k] {
      assert forall i :: 0 <= i < |ids| ==> ids[i] in ids;
      RisingFills(at, k);
    }
  }

  lemma NumberedIds(q: Question, listed: seq<Entry>)
    ensures Map(Numbered(q, listed), RequirementIdOf) == Map(listed, IdOf)
  {
  }

  lemma ExplicitlyListed(q: Question, spec: PortSpec, listed: seq<Entry>)
    requires spec.ordering == Some(Explicit) && Rankable(q, spec, listed)
    requires StrictlySorted(listed, Position(q, spec))
    ensures ExplicitOrder(q.policy.explicitOrders, spec.portKey) == Some(Map(listed, IdOf))
  {
    var declared := ExplicitOrder(q.policy.explicitOrders, spec.portKey).value;
    var ids := Map(listed, IdOf);
    forall i, j | 0 <= i < j < |ids| ensures IndexOf(declared, ids[i]) < IndexOf(declared, ids[j]) {
      assert listed[i] in listed && listed[j] in listed;
      assert ids[i] == IdOf(listed[i]) && ids[j] == IdOf(listed[j]);
      PositionsCompared(q, spec, listed[i], listed[j]);
    }
    RisingArrangement(declared, ids);
  }

  // ------------------------------------------------------------------------- witnesses in force

  /** A witness of the binding's acceptance and support, issued to its consumer to start work, decided usable, taken
      at the epoch its scope is at now, before its deadline, and current. */
  predicate WitnessStands(b: Binding, consumerTaskRef: string, policy: Policy, witnesses: map<string, Witness>) {
    b.bound.acceptanceId in witnesses
    && var w := witnesses[b.bound.acceptanceId];
    && w.purpose == Start && w.consumerIsTask && w.consumerId == consumerTaskRef
    && w.supportRevision == b.supportRevision && w.decision == Usable
    && w.scopeId in policy.scopeEpochs && w.scopeEpoch == policy.scopeEpochs[w.scopeId]
    && (w.notAfterMs != None ==> policy.nowMs < w.notAfterMs.value)
    && w.freshness == Current
  }

  lemma UpheldWitness(q: Question, rs: seq<DataRequirement>, accepted: AcceptedIndex, b: Binding)
    requires PolicyCurrent(q.policy)
    requires exists r, c :: Upheld(q, rs, accepted, b, r, c)
    ensures WitnessStands(b, q.consumer.taskId, q.policy, q.witnesses)
  {
    var r, c :| Upheld(q, rs, accepted, b, r, c);
    assert c in Filter(accepted.outputs, Matching(b));
    FilterMember(accepted.outputs, Matching(b), c);
  }

  /** Permission to use a manifest means that every input's witness stands now. */
  lemma UseNeedsWitnesses(m: Manifest, network: Network, accepted: AcceptedIndex, policy: Policy,
                          witnesses: map<string, Witness>, naming: Naming)
    requires network.Valid() && UsePermitted(m, network, accepted, policy, witnesses, naming)
    ensures forall b :: b in m.bindings ==> WitnessStands(b, m.consumerTaskRef, policy, witnesses)
  {
    UsePermittedExact(m, network, accepted, policy, witnesses, naming);
    var members := Filter(network.occurrences, OfTask(m.consumerTaskRef));
    var o := members[0];
    assert o in members;
    FilterMember(network.occurrences, OfTask(m.consumerTaskRef), o);
    forall b | b in m.bindings ensures WitnessStands(b, m.consumerTaskRef, policy, witnesses) {
      UpheldWitness(Question(network.consumers[o.taskId], o.occurrenceId, witnesses, policy, naming),
                    network.requirements, accepted, b);
    }
  }

  /** With the same requirements and outputs, one binding passes under another time, other epochs and other witnesses
      exactly when its witness stands under them. */
  lemma WitnessDecides(q: Question, q': Question, rs: seq<DataRequirement>, accepted: AcceptedIndex, b: Binding)
    requires forall i, j :: 0 <= i < j < |rs| ==> rs[i].requirementId != rs[j].requirementId
    requires PolicyCurrent(q.policy)
    requires q' == q.(witnesses := q'.witnesses,
                      policy := q.policy.(nowMs := q'.policy.nowMs, scopeEpochs := q'.policy.scopeEpochs))
    requires UseProblem(q, rs, accepted, b) == None
    ensures UseProblem(q', rs, accepted, b)
         == if WitnessStands(b, q.consumer.taskId, q'.policy, q'.witnesses) then None else Some(WitnessNotCurrent)
  {
    UseExact(q, rs, accepted, b);
    var r, c :| Upheld(q, rs, accepted, b, r, c);
    RequirementFound(rs, r);
    OneCandidate(accepted, b);
    var spec := PortOf(q.consumer.inputPorts, b.inputPort).value;
    assert CheckSchema(q, r, spec, c) == CheckSchema(q', r, spec, c);
    assert CheckWitness(q', r, c).Success? <==> WitnessLicenses(q', c);
  }

  /** A permitted manifest, looked at under another time, other scope epochs and other witnesses: it stays permitted
      exactly when every input's witness stands under them, and is otherwise refused for its witness. So one epoch
      that moved on, one deadline reached or one witness no longer current is enough to refuse it. */
  lemma WitnessesDecideUse(m: Manifest, network: Network, accepted: AcceptedIndex, policy: Policy,
                           witnesses: map<string, Witness>, naming: Naming, nowMs: int,
                           scopeEpochs: map<string, int>, witnesses': map<string, Witness>)
    requires network.Valid() && UsePermitted(m, network, accepted, policy, witnesses, naming)
    ensures var policy' := policy.(nowMs := nowMs, scopeEpochs := scopeEpochs);
      && (UsePermitted(m, network, accepted, policy', witnesses', naming) <==>
            forall b :: b in m.bindings ==> WitnessStands(b, m.consumerTaskRef, policy', witnesses'))
      && (forall why :: FirstRefusal(m, network, accepted, policy', witnesses', naming, why) ==>
            why == WitnessNotCurrent)
  {
    var policy' := policy.(nowMs := nowMs, scopeEpochs := scopeEpochs);
    var q := ConsumerQuestion(m, network, policy, witnesses, naming).value;
    var q' := ConsumerQuestion(m, network, policy', witnesses', naming).value;
    var members := Filter(network.occurrences, OfTask(m.consumerTaskRef));
    assert members[0] in members;
    FilterMember(network.occurrences, OfTask(m.consumerTaskRef), members[0]);
    forall b | b in m.bindings
      ensures UseProblem(q', network.requirements, accepted, b)
           == if WitnessStands(b, m.consumerTaskRef, policy', witnesses') then None else Some(WitnessNotCurrent)
    {
      WitnessDecides(q, q', network.requirements, accepted, b);
    }
  }

  /** The witness of a resolved binding, under any policy: where the policy allows unknown scopes, a scope without
      an epoch passes; where it does not require witnesses, an acceptance without one passes. */
  lemma ResolvedWitness(q: Question, rs: seq<DataRequirement>, accepted: AcceptedIndex, b: Binding)
    requires HasManifest(Resolve(q, rs, accepted)) && b in Resolve(q, rs, accepted).manifest.value.bindings
    ensures b.bound.acceptanceId !in q.witnesses ==> !q.policy.requireWitness && b.witnessId == None
    ensures b.bound.acceptanceId in q.witnesses ==>
      var w := q.witnesses[b.bound.acceptanceId];
      && b.witnessId == Some(w.witnessId)
      && w.purpose in q.policy.purposes && w.consumerIsTask && w.consumerId == q.consumer.taskId
      && w.supportRevision == b.supportRevision && w.decision == Usable
      && (w.scopeId in q.policy.scopeEpochs ==> w.scopeEpoch == q.policy.scopeEpochs[w.scopeId])
      && (w.scopeId !in q.policy.scopeEpochs ==> q.policy.allowUnknownScope)
      && (w.notAfterMs != None ==> q.policy.nowMs < w.notAfterMs.value)
      && w.freshness == Current
  {
    var r, c := Behind(q, rs, accepted, b);
  }

  // ------------------------------------------------------------------------ recognised inputs

  /** A binding recognises its output by everything except its ordinal, its order keys and its disclosure. */
  lemma RecognisedByIdentity(q: Question, r: DataRequirement, c: AcceptedOutput, b: Binding, x: AcceptedOutput)
    requires b == MakeBinding(q, EntryFor(q, r, c), b.portOrdinal)
    ensures Matching(b)(x) <==>
      x == c.(producerOrdinal := x.producerOrdinal, orderKeys := x.orderKeys, disclosure := x.disclosure)
  {
  }

  /** The frozen input's requirement is there, unchanged, and its port is declared. */
  ghost predicate StillAsked(q: Question, rs: seq<DataRequirement>, b: Binding, r: DataRequirement) {
    && r in rs && r.consumerOccurrence == q.occurrence && r.requirementId == b.bound.requirementId
    && r.inputPort == b.inputPort && r.producerOccurrence == b.producerOccurrence && r.outputPort == b.outputPort
    && exists spec :: spec in q.consumer.inputPorts && spec.portKey == b.inputPort
  }

  /** The refusal of one frozen input, check by check, over the requirement and the one recognised output. */
  lemma UseRefusals(q: Question, rs: seq<DataRequirement>, accepted: AcceptedIndex, b: Binding)
    requires forall i, j :: 0 <= i < j < |rs| ==> rs[i].requirementId != rs[j].requirementId
    ensures var (why, same) := (UseProblem(q, rs, accepted, b), Filter(accepted.outputs, Matching(b)));
      && (why == Some(RequirementChanged) <==> forall r :: r in rs ==> !StillAsked(q, rs, b, r))
      && (forall r :: r in rs && StillAsked(q, rs, b, r) ==>
            if |same| != 1 || same[0].disclosure != Disclosable then why == Some(NotCurrentlyDisclosable)
            else if b.provisional && b.inputPort !in q.policy.provisionalPorts then
              why == Some(ProvisionalUseNotAuthorized)
            else if r.revisionPolicy == FollowAuthorized
                    && (b.producerOccurrence, b.outputPort) in accepted.authorized
                    && accepted.authorized[(b.producerOccurrence, b.outputPort)] != b.bound.sourceRevision then
              why == Some(ReacceptanceRequired)
            else why in {Some(SchemaPermissionChanged), Some(WitnessNotCurrent), None})
  {
    FoundIff(rs, q.occurrence, b.bound.requirementId);
    PortLookedUp(q.consumer.inputPorts, b.inputPort);
    OneCandidate(accepted, b);
    forall r | r in rs && StillAsked(q, rs, b, r)
      ensures FindRequirement(rs, q.occurrence, b.bound.requirementId) == Some(r)
    {
      RequirementFound(rs, r);
    }
  }

  // ------------------------------------------------------------------------ refusals reported

  /** What the witness of a candidate is refused as: the first of the checks that it fails. */
  ghost predicate WitnessFails(q: Question, c: AcceptedOutput, kind: ProblemKind) {
    if c.acceptanceId !in q.witnesses then kind == WitnessMissing && q.policy.requireWitness
    else
      var w := q.witnesses[c.acceptanceId];
      var purposed := w.purpose in q.policy.purposes;
      var addressed := purposed && w.consumerIsTask && w.consumerId == q.consumer.taskId;
      var supported := addressed && w.supportRevision == c.supportRevision;
      var usable := supported && w.decision == Usable;
      var comparable := usable && (w.scopeId in q.policy.scopeEpochs || q.policy.allowUnknownScope);
      match kind
      case WitnessPurposeMismatch => !purposed
      case WitnessConsumerMismatch => purposed && !addressed
      case WitnessSupportMismatch => addressed && !supported
      case WitnessNotUsable => (supported && !usable) || (comparable && !InForce(q.policy, w))
      case WitnessEpochUnknown => usable && !comparable
      case _ => false
  }

  /** What a candidate is refused as. */
  ghost predicate Fails(q: Question, r: DataRequirement, spec: PortSpec, c: AcceptedOutput, kind: ProblemKind) {
    var declared := c.disclosure == Disclosable && SchemaDeclared(q, r, spec, c);
    var placed := declared && (c.provisional ==> r.inputPort in q.policy.provisionalPorts);
    match kind
    case NotDisclosable => c.disclosure != Disclosable
    case SchemaMismatch => c.disclosure == Disclosable && !declared
    case ProvisionalNotAuthorized => declared && !placed
    case _ => placed && WitnessFails(q, c, kind)
  }

  lemma SchemaRefusal(q: Question, r: DataRequirement, spec: PortSpec, c: AcceptedOutput)
    ensures CheckSchema(q, r, spec, c).Failure? <==> !SchemaDeclared(q, r, spec, c)
    ensures CheckSchema(q, r, spec, c).Failure? ==>
      CheckSchema(q, r, spec, c).error.kind == SchemaMismatch && AboutIt(r, CheckSchema(q, r, spec, c).error)
  {
    MatchRuleIff(q.policy.schemaRules, c.schemaRef, r.schemaRef);
  }

  predicate AboutIt(r: DataRequirement, p: Problem) {
    p.inputPort == Some(r.inputPort) && p.requirementIds == [r.requirementId] && p.inputPorts == [r.inputPort]
  }

  lemma WitnessRefusal(q: Question, r: DataRequirement, c: AcceptedOutput, kind: ProblemKind)
    ensures WitnessFails(q, c, kind) <==> CheckWitness(q, r, c).Failure? && CheckWitness(q, r, c).error.kind == kind
    ensures CheckWitness(q, r, c).Failure? ==> AboutIt(r, CheckWitness(q, r, c).error)
  {
  }

  lemma WeighRefusal(q: Question, r: DataRequirement, spec: PortSpec, c: AcceptedOutput, kind: ProblemKind)
    ensures Fails(q, r, spec, c, kind) <==> Weigh(q, r, spec, c).Refused? && Weigh(q, r, spec, c).problem.kind == kind
    ensures Weigh(q, r, spec, c).Refused? ==> AboutIt(r, Weigh(q, r, spec, c).problem)
  {
    SchemaRefusal(q, r, spec, c);
    WitnessRefusal(q, r, c, kind);
  }

  /** A refusal of this kind, about this requirement, is among those answered. */
  ghost predicate Reported(res: Resolution, r: DataRequirement, kind: ProblemKind) {
    res.Answer? && exists p :: p in res.problems && p.kind == kind && AboutIt(r, p)
  }

  /** No accepted output is offered to the requirement. */
  ghost predicate NothingOffered(q: Question, accepted: AcceptedIndex, r: DataRequirement) {
    forall c :: c in accepted.outputs ==> !OfferedTo(q, accepted, r)(c)
  }

  /** An output offered to a ready requirement is to be refused as this kind. */
  ghost predicate OfferFails(q: Question, accepted: AcceptedIndex, r: DataRequirement, kind: ProblemKind) {
    && Ready(q, accepted, r)
    && exists c :: c in accepted.outputs && OfferedTo(q, accepted, r)(c) && FailsAtPort(q, r, c, kind)
  }

  ghost predicate FailsAtPort(q: Question, r: DataRequirement, c: AcceptedOutput, kind: ProblemKind)
    requires PortOf(q.consumer.inputPorts, r.inputPort).Some?
  {
    Fails(q, r, PortOf(q.consumer.inputPorts, r.inputPort).value, c, kind)
  }

  predicate Undeclared(q: Question, r: DataRequirement) {
    forall spec :: spec in q.consumer.inputPorts ==> spec.portKey != r.inputPort
  }

  lemma FindingReported(q: Question, rs: seq<DataRequirement>, accepted: AcceptedIndex, r: DataRequirement, f: Finding)
    requires r in rs && f in Examine(q, accepted, r) && f.Refused? && AboutIt(r, f.problem)
    ensures Reported(Resolve(q, rs, accepted), r, f.problem.kind)
  {
    FindingListed(q, rs, accepted, r, f);
    FindingsOfExact(q, rs, accepted);
    SortMembers(rs, ById);
    FindingOrigin(q, accepted, Sort(rs, ById), f);
    assert f.problem.kind != PendingProducer;
    ListedAnswered(q, FindingsOf(q, rs, accepted), f.problem);
  }

  /** No refusal is lost: a requirement that feeds another occurrence, names no declared port, or whose one revision
      was not accepted, and every output offered to a ready requirement that fails one of the checks, is reported
      under the kind of the first check that fails. */
  lemma RefusalsReported(q: Question, rs: seq<DataRequirement>, accepted: AcceptedIndex, r: DataRequirement)
    requires r in rs
    ensures r.consumerOccurrence != q.occurrence ==> Reported(Resolve(q, rs, accepted), r, ForeignRequirement)
    ensures r.consumerOccurrence == q.occurrence && Undeclared(q, r) ==>
      Reported(Resolve(q, rs, accepted), r, UndeclaredPort)
    ensures Ready(q, accepted, r) && RevisionFixed(q.policy, accepted, r) && NothingOffered(q, accepted, r) ==>
      Reported(Resolve(q, rs, accepted), r, RevisionNotAvailable)
    ensures forall kind :: OfferFails(q, accepted, r, kind) ==> Reported(Resolve(q, rs, accepted), r, kind)
  {
    PortLookedUp(q.consumer.inputPorts, r.inputPort);
    var fs := Examine(q, accepted, r);
    if r.consumerOccurrence != q.occurrence || Undeclared(q, r) {
      FindingReported(q, rs, accepted, r, fs[0]);
    }
    if Ready(q, accepted, r) && RevisionFixed(q.policy, accepted, r) && NothingOffered(q, accepted, r) {
      RevisionReported(q, rs, accepted, r);
    }
    forall kind | OfferFails(q, accepted, r, kind) ensures Reported(Resolve(q, rs, accepted), r, kind) {
      OfferReported(q, rs, accepted, r, kind);
    }
  }

  lemma RevisionReported(q: Question, rs: seq<DataRequirement>, accepted: AcceptedIndex, r: DataRequirement)
    requires r in rs && Ready(q, accepted, r) && RevisionFixed(q.policy, accepted, r) && NothingOffered(q, accepted, r)
    ensures Reported(Resolve(q, rs, accepted), r, RevisionNotAvailable)
  {
    SelectedAreOffers(q, accepted, r);
    FilterNone(accepted.outputs, OfferedTo(q, accepted, r));
    FindingReported(q, rs, accepted, r, Examine(q, accepted, r)[0]);
  }

  /** A refused offer is among the findings of its requirement. */
  lemma OfferFound(q: Question, accepted: AcceptedIndex, r: DataRequirement, c: AcceptedOutput)
    requires Ready(q, accepted, r) && c in accepted.outputs && OfferedTo(q, accepted, r)(c)
    ensures Weigh(q, r, PortOf(q.consumer.inputPorts, r.inputPort).value, c) in Examine(q, accepted, r)
  {
    var spec := PortOf(q.consumer.inputPorts, r.inputPort).value;
    var cs := Sort(Offers(q, accepted, r), ByRevision);
    FilterMember(accepted.outputs, OfferedTo(q, accepted, r), c);
    SortMembers(Offers(q, accepted, r), ByRevision);
    ReadyShape(q, accepted, r);
    WeighedIn(q, r, spec, cs, c);
  }

  lemma WeighedIn(q: Question, r: DataRequirement, spec: PortSpec, cs: seq<AcceptedOutput>, c: AcceptedOutput)
    requires c in cs
    ensures Weigh(q, r, spec, c) in Map(cs, Weigher(q, r, spec))
  {
    var i :| 0 <= i < |cs| && cs[i] == c;
    assert Map(cs, Weigher(q, r, spec))[i] == Weigh(q, r, spec, c);
  }

  lemma OfferReported(q: Question, rs: seq<DataRequirement>, accepted: AcceptedIndex, r: DataRequirement,
                      kind: ProblemKind)
    requires r in rs && OfferFails(q, accepted, r, kind)
    ensures Reported(Resolve(q, rs, accepted), r, kind)
  {
    var c :| c in accepted.outputs && OfferedTo(q, accepted, r)(c) && FailsAtPort(q, r, c, kind);
    var spec := PortOf(q.consumer.inputPorts, r.inputPort).value;
    OfferFound(q, accepted, r, c);
    WeighRefusal(q, r, spec, c, kind);
    FindingReported(q, rs, accepted, r, Weigh(q, r, spec, c));
  }

  lemma FindingListed(q: Question, rs: seq<DataRequirement>, accepted: AcceptedIndex, r: DataRequirement, f: Finding)
    requires r in rs && f in Examine(q, accepted, r) && !f.Licensed?
    ensures f.problem in AllProblems(q, FindingsOf(q, rs, accepted))
  {
    var fs := FindingsOf(q, rs, accepted);
    SortMembers(rs, ById);
    FindingOrigin(q, accepted, Sort(rs, ById), f);
    CollectMember(fs, ProblemIn, f.problem);
    assert ProblemIn(f) == Some(f.problem);
  }

  /** An unfinished producer is reported too, though it stands in no manifest's way. */
  lemma WaitingReported(q: Question, rs: seq<DataRequirement>, accepted: AcceptedIndex, r: DataRequirement)
    requires r in rs && Addressed(q, r) && r.producerOccurrence !in accepted.completed
    ensures Resolve(q, rs, accepted).Raised? || Reported(Resolve(q, rs, accepted), r, PendingProducer)
  {
    var f := Examine(q, accepted, r)[0];
    assert f in Examine(q, accepted, r) && f.Waiting? && f.problem.kind == PendingProducer && AboutIt(r, f.problem);
    FindingListed(q, rs, accepted, r, f);
    ListedAnswered(q, FindingsOf(q, rs, accepted), f.problem);
  }

  lemma ListedAnswered(q: Question, fs: seq<Finding>, p: Problem)
    requires p in AllProblems(q, fs)
    ensures Conclude(q, fs).Answer? ==> p in Conclude(q, fs).problems
    ensures p.kind != PendingProducer ==> Conclude(q, fs).Answer?
  {
    SortMembers(AllProblems(q, fs), BySeverity);
  }

  /** What a used port is refused as: too many inputs for a single one; for a set port without a rule, or without the
      explicit order that its rule asks for, that it is not ordered; and otherwise that its order is incomplete. */
  ghost predicate PortFails(q: Question, spec: PortSpec, es: seq<Entry>, kind: ProblemKind) {
    match kind
    case AmbiguousSinglePort => spec.cardinality == Single && |es| > 1
    case SetPortUnordered => spec.cardinality == Many && es != [] && Unordered(q, spec)
    case SetPortOrderIncomplete =>
      spec.cardinality == Many && es != [] && !Unordered(q, spec) && !Rankable(q, spec, es)
    case _ => false
  }

  ghost predicate Unordered(q: Question, spec: PortSpec) {
    var orders := q.policy.explicitOrders;
    || spec.ordering == None
    || (spec.ordering == Some(Explicit) && forall i :: 0 <= i < |orders| ==> orders[i].inputPort != spec.portKey)
  }

  lemma SettleRefusal(q: Question, spec: PortSpec, es: seq<Entry>, kind: ProblemKind)
    requires PortFails(q, spec, es, kind)
    ensures Settle(q, spec, es).Failure? && Settle(q, spec, es).error.kind == kind
    ensures Settle(q, spec, es).error.inputPort == Some(spec.portKey)
  {
    SettledIff(q, spec, es);
    OrderLookedUp(q.policy.explicitOrders, spec.portKey);
    if kind == SetPortUnordered && spec.ordering == Some(Explicit) {
      ExplicitAbsent(q, spec);
    }
  }

  lemma ExplicitAbsent(q: Question, spec: PortSpec)
    requires var orders := q.policy.explicitOrders;
      forall i :: 0 <= i < |orders| ==> orders[i].inputPort != spec.portKey
    ensures ExplicitOrder(q.policy.explicitOrders, spec.portKey) == None
  {
    OrderLookedUp(q.policy.explicitOrders, spec.portKey);
  }

  lemma PortFailsReorder(q: Question, spec: PortSpec, es: seq<Entry>, es': seq<Entry>, kind: ProblemKind)
    requires SameElements(es, es') && PortFails(q, spec, es, kind)
    ensures PortFails(q, spec, es', kind)
  {
    SameMembers(es, es');
    assert |multiset(es)| == |multiset(es')|;
    if kind == SetPortOrderIncomplete && Rankable(q, spec, es') {
      SettleableReorder(q, spec, es', es);
    }
  }

  /** When every requirement is met, a declared port that cannot be settled is reported as what it fails. */
  lemma PortReported(q: Question, rs: seq<DataRequirement>, accepted: AcceptedIndex, spec: PortSpec, kind: ProblemKind)
    requires forall r :: r in rs ==> RequirementOk(q, accepted, r)
    requires PortOf(q.consumer.inputPorts, spec.portKey) == Some(spec)
    requires PortFails(q, spec, PairsAt(q, rs, accepted, spec.portKey), kind)
    ensures var res := Resolve(q, rs, accepted);
      res.Answer? && exists p :: p in res.problems && p.kind == kind && p.inputPort == Some(spec.portKey)
  {
    var (fs, port) := (FindingsOf(q, rs, accepted), spec.portKey);
    FindingsOfExact(q, rs, accepted);
    EntriesAtPairs(q, rs, accepted, port);
    UsedPortIff(fs, port);
    PortFailsReorder(q, spec, PairsAt(q, rs, accepted, port), EntriesAt(fs, port), kind);
    SettleRefusal(q, spec, EntriesAt(fs, port), kind);
    ProblemAnswered(q, fs, port);
  }

  lemma ProblemAnswered(q: Question, fs: seq<Finding>, port: string)
    requires port in UsedPorts(fs) && PortOutcome(q, fs, port).Failure?
    requires PortOutcome(q, fs, port).error.kind != PendingProducer
    ensures Conclude(q, fs).Answer? && PortOutcome(q, fs, port).error in Conclude(q, fs).problems
  {
    var p := PortOutcome(q, fs, port).error;
    assert RefusalFor(q, fs)(port) == Some(p);
    CollectMember(UsedPorts(fs), RefusalFor(q, fs), p);
    assert p in AllProblems(q, fs);
    ListedAnswered(q, fs, p);
  }
}
