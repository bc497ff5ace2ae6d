/** `require_current_manifest_use`: may a frozen manifest still be used, without resolving again? */
module ManifestUse {
  import opened InputModel
  import opened Ordering
  import opened Sequences
  import opened Resolution
  import opened ResolverExactness

  datatype Occurrence = Occurrence(occurrenceId: string, taskId: string)

  /** The part of a task network that the check reads. */
  datatype Network = Network(
    occurrences: seq<Occurrence>, consumers: map<string, Consumer>, requirements: seq<DataRequirement>)
  {
    /** What the network's own constructor guarantees. */
    ghost predicate Valid() {
      && (forall o :: o in occurrences ==> o.taskId in consumers && consumers[o.taskId].taskId == o.taskId)
      && (forall i, j :: 0 <= i < j < |requirements| ==> requirements[i].requirementId != requirements[j].requirementId)
    }
  }

  datatype UseRefusal =
    | PolicyInvalid | ConsumerAmbiguous | RequirementChanged | NotCurrentlyDisclosable
    | ProvisionalUseNotAuthorized | ReacceptanceRequired | SchemaPermissionChanged | WitnessNotCurrent

  function OfTask(taskId: string): Occurrence -> bool {
    (o: Occurrence) => o.taskId == taskId
  }

  function FindRequirement(rs: seq<DataRequirement>, occurrence: string, id: string): Option<DataRequirement> {
    if rs == [] then None
    else
      var last := rs[|rs| - 1];
      if last.consumerOccurrence == occurrence && last.requirementId == id then Some(last)
      else FindRequirement(rs[..|rs| - 1], occurrence, id)
  }

  /** The eleven fields by which a frozen input is recognised. */
  predicate SameIdentity(b: Binding, c: AcceptedOutput) {
    && c.producerTaskRef == b.producerTaskRef && c.producerResultId == b.bound.producerResultId
    && c.acceptanceId == b.bound.acceptanceId && c.artifactId == b.bound.artifactId
    && c.contentHash == b.bound.contentHash && c.sourceRevision == b.bound.sourceRevision
    && c.supportRevision == b.supportRevision && c.sourceIdentity == b.sourceIdentity
    && c.schemaRef == b.producedSchema && c.disclosureScope == b.disclosureScope
    && c.provisional == b.provisional
  }

  function Recognised(b: Binding): AcceptedOutput -> bool {
    (c: AcceptedOutput) => SameIdentity(b, c)
  }

  /** The body of the loop: what, if anything, stands against one frozen binding. */
  function UseProblem(q: Question, rs: seq<DataRequirement>, accepted: AcceptedIndex, b: Binding): Option<UseRefusal> {
    var found := FindRequirement(rs, q.occurrence, b.bound.requirementId);
    var spec := PortOf(q.consumer.inputPorts, b.inputPort);
    if found.None? || found.value.inputPort != b.inputPort
       || found.value.producerOccurrence != b.producerOccurrence
       || found.value.outputPort != b.outputPort || spec.None? then Some(RequirementChanged)
    else
      var r := found.value;
      var candidates := Filter(At(accepted, b.producerOccurrence, b.outputPort), Recognised(b));
      if |candidates| != 1 || candidates[0].disclosure != Disclosable then Some(NotCurrentlyDisclosable)
      else
        var c := candidates[0];
        var place := (b.producerOccurrence, b.outputPort);
        if c.provisional && b.inputPort !in q.policy.provisionalPorts then Some(ProvisionalUseNotAuthorized)
        else if !r.revisionPolicy.Pinned? && place in accepted.authorized
                && accepted.authorized[place] != b.bound.sourceRevision then Some(ReacceptanceRequired)
        else if CheckSchema(q, r, spec.value, c) != Success(b.converter) then Some(SchemaPermissionChanged)
        else if CheckWitness(q, r, c).Failure? then Some(WitnessNotCurrent)
        else None
  }

  predicate PolicyCurrent(policy: Policy) {
    policy.requireWitness && !policy.allowUnknownScope && policy.purposes == {Start}
  }

  /** The consumer's only occurrence in the network, with what the checks need to know about it. */
  function ConsumerQuestion(m: Manifest, network: Network, policy: Policy, witnesses: map<string, Witness>,
                            naming: Naming): Option<Question>
  {
    var members := Filter(network.occurrences, OfTask(m.consumerTaskRef));
    if |members| == 1 && members[0].taskId in network.consumers then
      Some(Question(network.consumers[members[0].taskId], members[0].occurrenceId, witnesses, policy, naming))
    else None
  }

  ghost predicate UsePermitted(m: Manifest, network: Network, accepted: AcceptedIndex, policy: Policy,
                               witnesses: map<string, Witness>, naming: Naming)
  {
    var q := ConsumerQuestion(m, network, policy, witnesses, naming);
    && m.IsFrozen() && PolicyCurrent(policy) && q.Some?
    && forall b :: b in m.bindings ==> UseProblem(q.value, network.requirements, accepted, b).None?
  }

  /** The refusal raised is that of the first check that fails. */
  ghost predicate FirstRefusal(m: Manifest, network: Network, accepted: AcceptedIndex, policy: Policy,
                               witnesses: map<string, Witness>, naming: Naming, why: UseRefusal)
  {
    var q := ConsumerQuestion(m, network, policy, witnesses, naming);
    if !m.IsFrozen() || !PolicyCurrent(policy) then why == PolicyInvalid
    else if q.None? then why == ConsumerAmbiguous
    else FirstAgainst(q.value, network.requirements, accepted, m.bindings, why)
  }

  ghost predicate FirstAgainst(q: Question, rs: seq<DataRequirement>, accepted: AcceptedIndex, bs: seq<Binding>,
                               why: UseRefusal)
  {
    exists i :: 0 <= i < |bs| && UseProblem(q, rs, accepted, bs[i]) == Some(why)
      && forall j :: 0 <= j < i ==> UseProblem(q, rs, accepted, bs[j]).None?
  }

  /** The loop over the frozen bindings: what stands against the first one that something stands against. */
  method CheckBindings(q: Question, rs: seq<DataRequirement>, accepted: AcceptedIndex, bs: seq<Binding>)
    returns (refusal: Option<UseRefusal>)
    ensures refusal.None? ==> forall b :: b in bs ==> UseProblem(q, rs, accepted, b).None?
    ensures refusal.Some? ==> FirstAgainst(q, rs, accepted, bs, refusal.value)
  {
    for i := 0 to |bs|
      invariant forall j :: 0 <= j < i ==> UseProblem(q, rs, accepted, bs[j]).None?
    {
      refusal := UseProblem(q, rs, accepted, bs[i]);
      if refusal.Some? {
        return;
      }
    }
    return None;
  }

  /** `require_current_manifest_use`; `None` is permission. */
  method RequireCurrentManifestUse(m: Manifest, network: Network, accepted: AcceptedIndex, policy: Policy,
                                   witnesses: map<string, Witness>, naming: Naming)
    returns (refusal: Option<UseRefusal>)
    requires network.Valid()
    ensures refusal.None? <==> UsePermitted(m, network, accepted, policy, witnesses, naming)
    ensures refusal.Some? ==> FirstRefusal(m, network, accepted, policy, witnesses, naming, refusal.value)
  {
    if !m.IsFrozen() || !PolicyCurrent(policy) {
      return Some(PolicyInvalid);
    }
    var members := Filter(network.occurrences, OfTask(m.consumerTaskRef));
    if |members| != 1 {
      return Some(ConsumerAmbiguous);
    }
    FilterMember(network.occurrences, OfTask(m.consumerTaskRef), members[0]);
    assert members[0] in members;
    var q := Question(network.consumers[members[0].taskId], members[0].occurrenceId, witnesses, policy, naming);
    refusal := CheckBindings(q, network.requirements, accepted, m.bindings);
  }

  /** What a binding must still have to be used: its requirement, unchanged; exactly one accepted output of
      its identity, and that one readable, authorised, of a declared schema with the same converter, and
      licensed by a witness. */
  ghost predicate Upheld(q: Question, rs: seq<DataRequirement>, accepted: AcceptedIndex, b: Binding,
                         r: DataRequirement, c: AcceptedOutput)
  {
    var (spec, place) := (PortOf(q.consumer.inputPorts, b.inputPort), (b.producerOccurrence, b.outputPort));
    && r in rs && r.consumerOccurrence == q.occurrence && r.requirementId == b.bound.requirementId
    && r.inputPort == b.inputPort && r.producerOccurrence == b.producerOccurrence && r.outputPort == b.outputPort
    && Filter(accepted.outputs, Matching(b)) == [c]
    && spec.Some? && Permitted(q, r, spec.value, c) && EntryFor(q, r, c).converter == b.converter
    && (r.revisionPolicy.FollowAuthorized? && place in accepted.authorized ==>
          accepted.authorized[place] == b.bound.sourceRevision)
  }

  lemma {:induction false} FoundIff(rs: seq<DataRequirement>, occurrence: string, id: string)
    ensures var found := FindRequirement(rs, occurrence, id);
      && (found.Some? ==> found.value in rs && found.value.consumerOccurrence == occurrence
                          && found.value.requirementId == id)
      && (found.None? ==> forall r :: r in rs ==> r.consumerOccurrence != occurrence || r.requirementId != id)
    decreases |rs|
  {
    if rs != [] {
      FoundIff(rs[..|rs| - 1], occurrence, id);
      assert rs == rs[..|rs| - 1] + [rs[|rs| - 1]];
    }
  }

  lemma ChecksIff(q: Question, r: DataRequirement, spec: PortSpec, c: AcceptedOutput, converter: Option<string>)
    ensures CheckSchema(q, r, spec, c) == Success(converter) && CheckWitness(q, r, c).Success?
            && c.disclosure == Disclosable && (c.provisional ==> r.inputPort in q.policy.provisionalPorts)
        <==> Permitted(q, r, spec, c) && EntryFor(q, r, c).converter == converter
  {
    MatchRuleIff(q.policy.schemaRules, c.schemaRef, r.schemaRef);
    assert CheckSchema(q, r, spec, c).Success? <==> SchemaDeclared(q, r, spec, c);
    assert CheckWitness(q, r, c).Success? <==> WitnessLicenses(q, c);
  }

  lemma OneCandidate(accepted: AcceptedIndex, b: Binding)
    ensures var (same, found) :=
              (Filter(accepted.outputs, Matching(b)),
               Filter(At(accepted, b.producerOccurrence, b.outputPort), Recognised(b)));
      |found| == |same| && (|same| == 1 ==> found == same && SameIdentity(b, same[0]))
  {
    var same := Filter(accepted.outputs, Matching(b));
    CandidatesAre(accepted, b);
    if |same| == 1 {
      assert same == [same[0]] && same[0] in same;
      SortOne(same[0], ByRevision);
      FilterMember(accepted.outputs, Matching(b), same[0]);
    }
  }

  /** The checks made of one frozen binding, whatever manifest it comes from, amount to its being upheld. */
  lemma UseExact(q: Question, rs: seq<DataRequirement>, accepted: AcceptedIndex, b: Binding)
    requires forall i, j :: 0 <= i < j < |rs| ==> rs[i].requirementId != rs[j].requirementId
    ensures UseProblem(q, rs, accepted, b).None? <==> exists r, c :: Upheld(q, rs, accepted, b, r, c)
  {
    var (found, spec) :=
      (FindRequirement(rs, q.occurrence, b.bound.requirementId), PortOf(q.consumer.inputPorts, b.inputPort));
    FoundIff(rs, q.occurrence, b.bound.requirementId);
    OneCandidate(accepted, b);
    var same := Filter(accepted.outputs, Matching(b));
    if found.Some? && spec.Some? && |same| == 1 {
      ChecksIff(q, found.value, spec.value, same[0], b.converter);
      assert same == [same[0]];
      if UseProblem(q, rs, accepted, b).None? {
        assert Upheld(q, rs, accepted, b, found.value, same[0]);
      }
    }
    if r, c :| Upheld(q, rs, accepted, b, r, c) {
      RequirementFound(rs, r);
    }
  }

  // ------------------------------------------------------------- manifests that were resolved

  function Matching(b: Binding): AcceptedOutput -> bool {
    (c: AcceptedOutput) =>
      c.producerOccurrence == b.producerOccurrence && c.outputPort == b.outputPort && SameIdentity(b, c)
  }

  /** The frozen input is still accepted once, still readable, and still the authorised revision where
      the binding follows one. */
  ghost predicate StillStands(accepted: AcceptedIndex, b: Binding) {
    var same := Filter(accepted.outputs, Matching(b));
    var place := (b.producerOccurrence, b.outputPort);
    && |same| == 1 && same[0].disclosure == Disclosable
    && (b.revisionPolicy.FollowAuthorized? && place in accepted.authorized ==>
          accepted.authorized[place] == b.bound.sourceRevision)
  }

  lemma {:induction false} RequirementFound(rs: seq<DataRequirement>, r: DataRequirement)
    requires r in rs
    requires forall i, j :: 0 <= i < j < |rs| ==> rs[i].requirementId != rs[j].requirementId
    ensures FindRequirement(rs, r.consumerOccurrence, r.requirementId) == Some(r)
  {
    var k :| 0 <= k < |rs| && rs[k] == r;
    var n := |rs| - 1;
    if k < n {
      assert rs[n].requirementId != r.requirementId;
      assert rs[..n][k] == r;
      RequirementFound(rs[..n], r);
    }
  }

  lemma CandidatesAre(accepted: AcceptedIndex, b: Binding)
    ensures Filter(At(accepted, b.producerOccurrence, b.outputPort), Recognised(b))
         == Sort(Filter(accepted.outputs, Matching(b)), ByRevision)
  {
    var p := AtPort(b.producerOccurrence, b.outputPort);
    SortFilter(Filter(accepted.outputs, p), ByRevision, Recognised(b));
    FilterFilter(accepted.outputs, p, Recognised(b), Matching(b));
  }

  /** The checks read nothing of a candidate beyond what a binding records of it. */
  lemma ChecksAgree(q: Question, r: DataRequirement, spec: PortSpec, c: AcceptedOutput, c': AcceptedOutput, b: Binding)
    requires Permitted(q, r, spec, c) && b == MakeBinding(q, EntryFor(q, r, c), b.portOrdinal)
    requires SameIdentity(b, c')
    ensures CheckSchema(q, r, spec, c') == Success(b.converter)
    ensures CheckWitness(q, r, c').Success?
    ensures c'.provisional ==> b.inputPort in q.policy.provisionalPorts
  {
    MatchRuleIff(q.policy.schemaRules, c.schemaRef, r.schemaRef);
    assert c'.schemaRef == c.schemaRef && c'.acceptanceId == c.acceptanceId && c'.supportRevision == c.supportRevision;
  }

  lemma UseOfPair(q: Question, all: seq<DataRequirement>, later: AcceptedIndex, b: Binding, r: DataRequirement,
                  c: AcceptedOutput)
    requires Addressed(q, r) && c.producerOccurrence == r.producerOccurrence && c.outputPort == r.outputPort
    requires Permitted(q, r, PortOf(q.consumer.inputPorts, r.inputPort).value, c)
    requires b == MakeBinding(q, EntryFor(q, r, c), b.portOrdinal)
    requires FindRequirement(all, q.occurrence, r.requirementId) == Some(r)
    ensures UseProblem(q, all, later, b).None? <==> StillStands(later, b)
  {
    var same := Filter(later.outputs, Matching(b));
    CandidatesAre(later, b);
    assert |Sort(same, ByRevision)| == |same|;
    if |same| == 1 {
      SortOne(same[0], ByRevision);
      assert same == [same[0]];
      FilterMember(later.outputs, Matching(b), same[0]);
      assert same[0] in same;
      ChecksAgree(q, r, PortOf(q.consumer.inputPorts, r.inputPort).value, c, same[0], b);
    }
  }

  /** The requirement and the accepted output behind a binding. */
  lemma Behind(q: Question, rs: seq<DataRequirement>, accepted: AcceptedIndex, b: Binding)
    returns (r: DataRequirement, c: AcceptedOutput)
    requires HasManifest(Resolve(q, rs, accepted)) && b in Resolve(q, rs, accepted).manifest.value.bindings
    ensures r in rs && Ready(q, accepted, r) && c in accepted.outputs && OfferedTo(q, accepted, r)(c)
    ensures Permitted(q, r, PortOf(q.consumer.inputPorts, r.inputPort).value, c)
    ensures b == MakeBinding(q, EntryFor(q, r, c), b.portOrdinal)
  {
    EveryBindingLicensed(q, rs, accepted, b);
    r, c :| IsPair(q, rs, accepted, r, c)
      && Permitted(q, r, PortOf(q.consumer.inputPorts, r.inputPort).value, c)
      && b == MakeBinding(q, EntryFor(q, r, c), b.portOrdinal);
    FilterMember(accepted.outputs, OfferedTo(q, accepted, r), c);
  }

  function IdWith(q: Question, r: DataRequirement): AcceptedOutput -> string {
    (c: AcceptedOutput) => MakeBinding(q, EntryFor(q, r, c), 0).bindingId
  }

  /** No two outputs offered to one requirement give bindings of one id. */
  lemma OffersIdentified(q: Question, rs: seq<DataRequirement>, accepted: AcceptedIndex, r: DataRequirement)
    requires HasManifest(Resolve(q, rs, accepted)) && r in rs && Ready(q, accepted, r)
    ensures !Repeats(Map(Offers(q, accepted, r), IdWith(q, r)))
  {
    ResolverExact(q, rs, accepted);
    RepeatsInPart(rs, Pairing(q, accepted), PairId(q), r);
    assert Map(Pairing(q, accepted)(r), PairId(q)) == Map(Offers(q, accepted, r), IdWith(q, r));
  }

  /** An output of the binding's identity gives the binding's id. */
  lemma IdOfMatch(q: Question, r: DataRequirement, c: AcceptedOutput, b: Binding, x: AcceptedOutput)
    requires b == MakeBinding(q, EntryFor(q, r, c), b.portOrdinal) && Matching(b)(x)
    ensures IdWith(q, r)(x) == b.bindingId
  {
    assert x.artifactId == c.artifactId && x.contentHash == c.contentHash && x.sourceRevision == c.sourceRevision;
    assert MakeBinding(q, EntryFor(q, r, x), 0).bindingId == MakeBinding(q, EntryFor(q, r, c), b.portOrdinal).bindingId;
  }

  /** An output of the binding's identity is offered where the binding's own output is. */
  lemma MatchOffered(q: Question, accepted: AcceptedIndex, r: DataRequirement, c: AcceptedOutput, b: Binding,
                     x: AcceptedOutput)
    requires b == MakeBinding(q, EntryFor(q, r, c), b.portOrdinal) && OfferedTo(q, accepted, r)(c) && Matching(b)(x)
    ensures OfferedTo(q, accepted, r)(x)
  {
  }

  lemma MatchesIdentified(q: Question, accepted: AcceptedIndex, r: DataRequirement, c: AcceptedOutput, b: Binding)
    requires b == MakeBinding(q, EntryFor(q, r, c), b.portOrdinal) && OfferedTo(q, accepted, r)(c)
    requires !Repeats(Map(Offers(q, accepted, r), IdWith(q, r)))
    ensures |Filter(accepted.outputs, Matching(b))| <= 1
  {
    var p := Matching(b);
    forall x | p(x) ensures OfferedTo(q, accepted, r)(x) && IdWith(q, r)(x) == b.bindingId {
      IdOfMatch(q, r, c, b, x);
      MatchOffered(q, accepted, r, c, b, x);
    }
    FilterFilter(accepted.outputs, OfferedTo(q, accepted, r), p, p);
    OneOfAnImage(Offers(q, accepted, r), IdWith(q, r), p, b.bindingId);
  }

  /** Every identity of a returned manifest was accepted exactly once: a second output of that identity would
      have been offered to the same requirement, under the same binding id. */
  lemma AcceptedOnce(q: Question, rs: seq<DataRequirement>, accepted: AcceptedIndex, b: Binding)
    requires HasManifest(Resolve(q, rs, accepted)) && b in Resolve(q, rs, accepted).manifest.value.bindings
    ensures |Filter(accepted.outputs, Matching(b))| == 1
  {
    var r, c := Behind(q, rs, accepted, b);
    PairMatches(q, accepted, b, r, c);
    FilterMember(accepted.outputs, Matching(b), c);
    OffersIdentified(q, rs, accepted, r);
    MatchesIdentified(q, accepted, r, c, b);
  }

  lemma ResolvedUse(q: Question, rs: seq<DataRequirement>, all: seq<DataRequirement>, accepted: AcceptedIndex,
                    later: AcceptedIndex, b: Binding)
    requires HasManifest(Resolve(q, rs, accepted)) && b in Resolve(q, rs, accepted).manifest.value.bindings
    requires forall r :: r in rs ==> r in all
    requires forall i, j :: 0 <= i < j < |all| ==> all[i].requirementId != all[j].requirementId
    ensures UseProblem(q, all, later, b).None? <==> StillStands(later, b)
  {
    var r, c := Behind(q, rs, accepted, b);
    RequirementFound(all, r);
    UseOfPair(q, all, later, b, r, c);
  }

  /** Every binding is upheld, as seen from one occurrence of the consumer. */
  ghost predicate AllUpheld(m: Manifest, network: Network, accepted: AcceptedIndex, policy: Policy,
                            witnesses: map<string, Witness>, naming: Naming, o: Occurrence)
  {
    && o.taskId == m.consumerTaskRef && o.taskId in network.consumers
    && var q := Question(network.consumers[o.taskId], o.occurrenceId, witnesses, policy, naming);
      forall b :: b in m.bindings ==> exists r, c :: Upheld(q, network.requirements, accepted, b, r, c)
  }

  /** The whole check, for any manifest, at any time, under any policy and witnesses: it permits exactly when
      the manifest is frozen, the policy asks for a starting witness, the consumer occurs once, and every
      binding is upheld there. */
  lemma UsePermittedExact(m: Manifest, network: Network, accepted: AcceptedIndex, policy: Policy,
                          witnesses: map<string, Witness>, naming: Naming)
    requires network.Valid()
    ensures UsePermitted(m, network, accepted, policy, witnesses, naming) <==>
        && m.IsFrozen() && policy.requireWitness && !policy.allowUnknownScope && policy.purposes == {Start}
        && var members := Filter(network.occurrences, OfTask(m.consumerTaskRef));
          |members| == 1 && AllUpheld(m, network, accepted, policy, witnesses, naming, members[0])
  {
    var members := Filter(network.occurrences, OfTask(m.consumerTaskRef));
    if |members| == 1 {
      var o := members[0];
      assert o in members;
      FilterMember(network.occurrences, OfTask(m.consumerTaskRef), o);
      var q := Question(network.consumers[o.taskId], o.occurrenceId, witnesses, policy, naming);
      forall b | b in m.bindings
        ensures UseProblem(q, network.requirements, accepted, b).None? <==>
                  exists r, c :: Upheld(q, network.requirements, accepted, b, r, c)
      {
        UseExact(q, network.requirements, accepted, b);
      }
    }
  }

  /** Currentness, exactly. A manifest resolved for the network's only occurrence of its consumer, and
      frozen, passes the later check precisely when each of its inputs still stands; nothing is
      resolved again, so revisions accepted since do not matter. */
  lemma ResolvedManifestCurrent(q: Question, rs: seq<DataRequirement>, network: Network, accepted: AcceptedIndex,
                                later: AcceptedIndex)
    requires network.Valid() && PolicyCurrent(q.policy)
    requires forall r :: r in rs ==> r in network.requirements
    requires Filter(network.occurrences, OfTask(q.consumer.taskId)) == [Occurrence(q.occurrence, q.consumer.taskId)]
    requires q.consumer.taskId in network.consumers && network.consumers[q.consumer.taskId] == q.consumer
    requires HasManifest(Resolve(q, rs, accepted)) && Resolve(q, rs, accepted).manifest.value.IsFrozen()
    ensures var m := Resolve(q, rs, accepted).manifest.value;
      UsePermitted(m, network, later, q.policy, q.witnesses, q.naming) <==>
        forall b :: b in m.bindings ==> StillStands(later, b)
  {
    var m := Resolve(q, rs, accepted).manifest.value;
    assert m.consumerTaskRef == q.consumer.taskId;
    assert ConsumerQuestion(m, network, q.policy, q.witnesses, q.naming) == Some(q);
    forall b | b in m.bindings
      ensures UseProblem(q, network.requirements, later, b).None? <==> StillStands(later, b)
    {
      ResolvedUse(q, rs, network.requirements, accepted, later, b);
    }
  }

  /** In the state it was resolved in, an input stands. */
  lemma FreshInputStands(q: Question, rs: seq<DataRequirement>, accepted: AcceptedIndex, b: Binding)
    requires HasManifest(Resolve(q, rs, accepted)) && b in Resolve(q, rs, accepted).manifest.value.bindings
    ensures StillStands(accepted, b)
  {
    var r, c := Behind(q, rs, accepted, b);
    PairMatches(q, accepted, b, r, c);
    StandsByItself(accepted, b, c);
    AcceptedOnce(q, rs, accepted, b);
  }

  lemma StandsByItself(accepted: AcceptedIndex, b: Binding, c: AcceptedOutput)
    requires c in accepted.outputs && Matching(b)(c) && c.disclosure == Disclosable
    requires var place := (b.producerOccurrence, b.outputPort);
      b.revisionPolicy.FollowAuthorized? && place in accepted.authorized ==>
        accepted.authorized[place] == b.bound.sourceRevision
    ensures StillStands(accepted, b) <==> |Filter(accepted.outputs, Matching(b))| == 1
  {
    FilterMember(accepted.outputs, Matching(b), c);
  }

  lemma PairMatches(q: Question, accepted: AcceptedIndex, b: Binding, r: DataRequirement, c: AcceptedOutput)
    requires OfferedTo(q, accepted, r)(c) && c.disclosure == Disclosable
    requires b == MakeBinding(q, EntryFor(q, r, c), b.portOrdinal)
    ensures Matching(b)(c)
    ensures var place := (b.producerOccurrence, b.outputPort);
      b.revisionPolicy.FollowAuthorized? && place in accepted.authorized ==>
        accepted.authorized[place] == b.bound.sourceRevision
  {
  }

  /** A freshly resolved frozen manifest always passes the check in the state it was resolved in. */
  lemma FreshManifestCurrent(q: Question, rs: seq<DataRequirement>, network: Network, accepted: AcceptedIndex)
    requires network.Valid() && PolicyCurrent(q.policy)
    requires forall r :: r in rs ==> r in network.requirements
    requires Filter(network.occurrences, OfTask(q.consumer.taskId)) == [Occurrence(q.occurrence, q.consumer.taskId)]
    requires q.consumer.taskId in network.consumers && network.consumers[q.consumer.taskId] == q.consumer
    requires HasManifest(Resolve(q, rs, accepted)) && Resolve(q, rs, accepted).manifest.value.IsFrozen()
    ensures UsePermitted(Resolve(q, rs, accepted).manifest.value, network, accepted, q.policy, q.witnesses, q.naming)
  {
    ResolvedManifestCurrent(q, rs, network, accepted, accepted);
    forall b | b in Resolve(q, rs, accepted).manifest.value.bindings ensures StillStands(accepted, b) {
      FreshInputStands(q, rs, accepted, b);
    }
  }

  /** Where the input follows the authorised revision of its place, that is still its own. */
  predicate AuthorisationHolds(accepted: AcceptedIndex, b: Binding) {
    var place := (b.producerOccurrence, b.outputPort);
    b.revisionPolicy.FollowAuthorized? && place in accepted.authorized ==>
      accepted.authorized[place] == b.bound.sourceRevision
  }

  /** What further acceptances, wherever each arrives, do to an input that stood: it stands as long as its
      own identity is not accepted again and, where it follows the authorised revision, that has not moved. */
  lemma StandsLater(accepted: AcceptedIndex, later: AcceptedIndex, extra: seq<AcceptedOutput>, b: Binding)
    requires multiset(later.outputs) == multiset(accepted.outputs) + multiset(extra) && StillStands(accepted, b)
    ensures StillStands(later, b) <==> (forall x :: x in extra ==> !Matching(b)(x)) && AuthorisationHolds(later, b)
  {
    var p := Matching(b);
    var (was, more, now) := (Filter(accepted.outputs, p), Filter(extra, p), Filter(later.outputs, p));
    FilterReorder(later.outputs, accepted.outputs + extra, p);
    FilterConcat(accepted.outputs, extra, p);
    SameMembers(now, was + more);
    if forall x :: x in extra ==> !p(x) {
      FilterNone(extra, p);
      assert was + [] == was && was[0] in was && now[0] in now;
    } else {
      var x :| x in extra && p(x);
      FilterMember(extra, p, x);
    }
  }

  /** A resolved frozen manifest stays permitted, whatever else is accepted and wherever it arrives, exactly as
      long as nothing accepted repeats the identity of one of its inputs and no authorisation that an input
      follows has moved: newer revisions never disturb it. While no authorisation changes, none has moved. */
  lemma FrozenManifestLasts(q: Question, rs: seq<DataRequirement>, network: Network, accepted: AcceptedIndex,
                            later: AcceptedIndex, extra: seq<AcceptedOutput>)
    requires network.Valid() && PolicyCurrent(q.policy)
    requires forall r :: r in rs ==> r in network.requirements
    requires Filter(network.occurrences, OfTask(q.consumer.taskId)) == [Occurrence(q.occurrence, q.consumer.taskId)]
    requires q.consumer.taskId in network.consumers && network.consumers[q.consumer.taskId] == q.consumer
    requires HasManifest(Resolve(q, rs, accepted)) && Resolve(q, rs, accepted).manifest.value.IsFrozen()
    requires multiset(later.outputs) == multiset(accepted.outputs) + multiset(extra)
    ensures var m := Resolve(q, rs, accepted).manifest.value;
      UsePermitted(m, network, later, q.policy, q.witnesses, q.naming) <==>
        forall b :: b in m.bindings ==>
          (forall x :: x in extra ==> !Matching(b)(x)) && AuthorisationHolds(later, b)
    ensures later.authorized == accepted.authorized ==>
      forall b :: b in Resolve(q, rs, accepted).manifest.value.bindings ==> AuthorisationHolds(later, b)
  {
    ResolvedManifestCurrent(q, rs, network, accepted, later);
    forall b | b in Resolve(q, rs, accepted).manifest.value.bindings
      ensures StillStands(later, b) <==> (forall x :: x in extra ==> !Matching(b)(x)) && AuthorisationHolds(later, b)
      ensures later.authorized == accepted.authorized ==> AuthorisationHolds(later, b)
    {
      FreshInputStands(q, rs, accepted, b);
      StandsLater(accepted, later, extra, b);
    }
  }
}
