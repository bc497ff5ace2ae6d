/** `materialise_plan`: where each frozen input should go, refusing to merge a collision.

    Path normalisation and case folding are supplied by `Platform`.
 */
module Materialisation {
  import opened InputModel
  import opened Ordering
  import opened Sequences
  import opened Resolution
  import opened ResolutionFacts
  import opened ManifestCodec
  import opened TextLines

  datatype Platform = Platform(normalise: string -> string, fold: string -> string, wording: Message -> string)

  datatype PlanEntry = PlanEntry(
    target: ResourceIdentity, contentHash: string, artifactIds: seq<string>, bindingIds: seq<string>,
    inputPorts: seq<string>)

  datatype TargetPlan = TargetPlan(consumerTaskRef: string, entries: seq<PlanEntry>, problems: seq<Problem>) {
    predicate Ok() { problems == [] }
  }

  /** A plan, or the error that the constructors raise. */
  datatype PlanOutcome = ManifestNotFrozen | PathRejected | Planned(plan: TargetPlan)

  predicate Escaping(path: string) { ".." in Segments(path) }

  /** The constructor of `ResourceIdentity`. */
  function NewIdentity(env: Platform, namespace: string, path: string): Option<ResourceIdentity> {
    if Blank(namespace) || Blank(path) || env.normalise(path) == [] then None
    else Some(ResourceIdentity(namespace, env.normalise(path)))
  }

  /** `TargetRules.target_for`. */
  function TargetFor(env: Platform, rules: TargetRules, b: Binding): Option<ResourceIdentity> {
    var prefix := if b.inputPort in rules.portPrefixes then rules.portPrefixes[b.inputPort] else "";
    var scoped := if rules.preserveSourceNamespace then b.sourceIdentity.namespace + "/" + b.sourceIdentity.path
                  else b.sourceIdentity.path;
    NewIdentity(env, rules.namespace, if prefix == "" then scoped else prefix + "/" + scoped)
  }

  /** The part of the collation key that differs between targets of one plan. */
  function PlaceKey(env: Platform, rules: TargetRules, path: string): string {
    if rules.caseInsensitive then env.fold(path) else path
  }

  /** How one set of rules places bindings: the target of each, the key that targets collide on, the
      spelling of a place, and the two refusals. */
  datatype Layout = Layout(
    target: Binding -> Option<ResourceIdentity>,
    escapes: ResourceIdentity -> bool,
    key: ResourceIdentity -> string,
    spell: ResourceIdentity -> Option<ResourceIdentity>,
    invalid: (Binding, ResourceIdentity) -> Problem,
    conflict: (string, seq<Binding>) -> Problem)

  function LayoutOf(env: Platform, rules: TargetRules): Layout {
    Layout(
      (b: Binding) => TargetFor(env, rules, b),
      (t: ResourceIdentity) => Escaping(t.path),
      (t: ResourceIdentity) => PlaceKey(env, rules, t.path),
      (t: ResourceIdentity) =>
        if rules.caseInsensitive then NewIdentity(env, t.namespace, env.fold(t.path)) else Some(t),
      (b: Binding, t: ResourceIdentity) =>
        Problem(TargetPathInvalid, env.wording(LeavesNamespace(b.bindingId, t.path)),
                Some(b.inputPort), [b.bound.requirementId], [b.bound.artifactId], [b.inputPort]),
      (place: string, members: seq<Binding>) =>
        Problem(TargetPathConflict,
                env.wording(PlaceContested(|SortedSet(Map(members, HashOf))|, place, rules.namespace)), None,
                SortedSet(Map(members, RequirementIn)), SortedSet(Map(members, ArtifactIn)),
                SortedSet(Map(members, PortName))))
  }

  function HashOf(b: Binding): string { b.bound.contentHash }

  function ArtifactIn(b: Binding): string { b.bound.artifactId }

  function RequirementIn(b: Binding): string { b.bound.requirementId }

  function PortName(b: Binding): string { b.inputPort }

  /** The place a binding is grouped under; none if its target leaves the namespace. */
  function PlaceOf(lay: Layout): Binding -> Option<string> {
    (b: Binding) =>
      match lay.target(b)
      case None => None
      case Some(t) => if lay.escapes(t) then None else Some(lay.key(t))
  }

  function InvalidIn(lay: Layout): Binding -> Option<Problem> {
    (b: Binding) =>
      match lay.target(b)
      case None => None
      case Some(t) => if lay.escapes(t) then Some(lay.invalid(b, t)) else None
  }

  function AtPlace(place: Binding -> Option<string>, key: string): Binding -> bool {
    (b: Binding) => place(b) == Some(key)
  }

  function MembersAt(bs: seq<Binding>, place: Binding -> Option<string>, key: string): seq<Binding> {
    Filter(bs, AtPlace(place, key))
  }

  /** `sorted(grouped)`. */
  function Places(bs: seq<Binding>, place: Binding -> Option<string>): seq<string> {
    SortedSet(Collect(bs, place))
  }

  predicate Contested(members: seq<Binding>) { |SortedSet(Map(members, HashOf))| > 1 }

  /** What the place loop makes of one group: an entry, a conflict, or the error of its spelling. */
  datatype PlaceOutcome = Entered(entry: PlanEntry) | Conflicting(problem: Problem) | Unspellable

  /** Groups are never empty; an empty one would have nothing to enter. */
  function Judge(lay: Layout, key: string, members: seq<Binding>): PlaceOutcome {
    if Contested(members) || members == [] then Conflicting(lay.conflict(key, members))
    else
      match lay.target(members[0])
      case None => Unspellable
      case Some(t) =>
        match lay.spell(t)
        case None => Unspellable
        case Some(target) =>
          Entered(PlanEntry(target, HashOf(members[0]), SortedSet(Map(members, ArtifactIn)),
                            Sort(Map(members, BindingIdOf), ByText), SortedSet(Map(members, PortName))))
  }

  function Judger(lay: Layout): (string, seq<Binding>) -> PlaceOutcome {
    (key: string, members: seq<Binding>) => Judge(lay, key, members)
  }

  function JudgedBy(judge: (string, seq<Binding>) -> PlaceOutcome, bs: seq<Binding>, place: Binding -> Option<string>)
    : string -> PlaceOutcome
  {
    (key: string) => judge(key, MembersAt(bs, place, key))
  }

  function EntryFrom(o: PlaceOutcome): Option<PlanEntry> { if o.Entered? then Some(o.entry) else None }

  function ConflictFrom(o: PlaceOutcome): Option<Problem> { if o.Conflicting? then Some(o.problem) else None }

  function Outcomes(lay: Layout, bs: seq<Binding>): seq<PlaceOutcome> {
    Map(Places(bs, PlaceOf(lay)), JudgedBy(Judger(lay), bs, PlaceOf(lay)))
  }

  function ByKind(p: Problem): Key { [Text(KindText(p.kind)), Text(p.detail)] }

  /** The plan that the two loops build. */
  function PlanOf(lay: Layout, m: Manifest): PlanOutcome {
    var outcomes := Outcomes(lay, m.bindings);
    if !m.IsFrozen() then ManifestNotFrozen
    else if (exists b :: b in m.bindings && lay.target(b).None?) || Unspellable in outcomes then PathRejected
    else
      Planned(TargetPlan(m.consumerTaskRef, Collect(outcomes, EntryFrom),
                         Sort(Collect(m.bindings, InvalidIn(lay)) + Collect(outcomes, ConflictFrom), ByKind)))
  }

  // ---------------------------------------------------------------------------- the loops

  ghost predicate GroupedSoFar(bs: seq<Binding>, place: Binding -> Option<string>, grouped: map<string, seq<Binding>>) {
    && (forall key :: key in grouped ==> grouped[key] == MembersAt(bs, place, key) != [])
    && (forall key :: key !in grouped ==> MembersAt(bs, place, key) == [])
  }

  lemma OneMore(bs: seq<Binding>, b: Binding, place: Binding -> Option<string>, grouped: map<string, seq<Binding>>)
    requires GroupedSoFar(bs, place, grouped)
    ensures place(b).None? ==> GroupedSoFar(bs + [b], place, grouped)
    ensures place(b).Some? ==>
      var key := place(b).value;
      GroupedSoFar(bs + [b], place, grouped[key := (if key in grouped then grouped[key] else []) + [b]])
  {
    forall key ensures MembersAt(bs + [b], place, key)
        == MembersAt(bs, place, key) + (if place(b) == Some(key) then [b] else [])
    {
      FilterConcat(bs, [b], AtPlace(place, key));
    }
  }

  lemma PlaceOccupied(bs: seq<Binding>, place: Binding -> Option<string>, key: string)
    ensures key in Places(bs, place) <==> MembersAt(bs, place, key) != []
  {
    SortedSetStrict(Collect(bs, place));
    CollectMember(bs, place, key);
    if key in Places(bs, place) {
      var b :| b in bs && place(b) == Some(key);
      FilterMember(bs, AtPlace(place, key), b);
    }
    if MembersAt(bs, place, key) != [] {
      var b := MembersAt(bs, place, key)[0];
      FilterMember(bs, AtPlace(place, key), b);
    }
  }

  method SortedPlaces(ghost bs: seq<Binding>, ghost place: Binding -> Option<string>,
                      grouped: map<string, seq<Binding>>)
    returns (keys: seq<string>)
    requires GroupedSoFar(bs, place, grouped)
    ensures keys == Places(bs, place)
  {
    keys := [];
    var rest := grouped.Keys;
    while rest != {}
      invariant rest <= grouped.Keys
      invariant StrictlySorted(keys, ByText)
      invariant forall key :: key in keys <==> key in grouped.Keys - rest
      decreases rest
    {
      var key :| key in rest;
      AddTextStrict(key, keys);
      keys := AddText(key, keys);
      rest := rest - {key};
    }
    SortedSetStrict(Collect(bs, place));
    forall key ensures key in keys <==> key in Places(bs, place) {
      PlaceOccupied(bs, place, key);
    }
    StrictDetermined(keys, Places(bs, place));
  }

  /** The binding loop: refuse targets outside the namespace, group the others by place. */
  method GroupBindings(lay: Layout, bs: seq<Binding>)
    returns (problems: seq<Problem>, grouped: map<string, seq<Binding>>, rejected: bool)
    ensures rejected <==> exists b :: b in bs && lay.target(b).None?
    ensures !rejected ==> problems == Collect(bs, InvalidIn(lay)) && GroupedSoFar(bs, PlaceOf(lay), grouped)
  {
    problems, grouped, rejected := [], map[], false;
    for i := 0 to |bs|
      invariant forall j :: 0 <= j < i ==> lay.target(bs[j]).Some?
      invariant problems == Collect(bs[..i], InvalidIn(lay))
      invariant GroupedSoFar(bs[..i], PlaceOf(lay), grouped)
    {
      var b := bs[i];
      assert bs[..i + 1] == bs[..i] + [b];
      CollectConcat(bs[..i], [b], InvalidIn(lay));
      OneMore(bs[..i], b, PlaceOf(lay), grouped);
      var target := lay.target(b);
      if target.None? {
        return problems, grouped, true;
      }
      if lay.escapes(target.value) {
        problems := problems + [lay.invalid(b, target.value)];
      } else {
        var key := lay.key(target.value);
        grouped := grouped[key := (if key in grouped then grouped[key] else []) + [b]];
      }
    }
    assert bs[..|bs|] == bs;
  }

  /** The place loop. */
  method PlanPlaces(judge: (string, seq<Binding>) -> PlaceOutcome, keys: seq<string>,
                    grouped: map<string, seq<Binding>>, ghost bs: seq<Binding>, ghost place: Binding -> Option<string>)
    returns (entries: seq<PlanEntry>, conflicts: seq<Problem>, rejected: bool)
    requires GroupedSoFar(bs, place, grouped) && keys == Places(bs, place)
    ensures var outcomes := Map(keys, JudgedBy(judge, bs, place));
      && (rejected <==> Unspellable in outcomes)
      && (!rejected ==> entries == Collect(outcomes, EntryFrom) && conflicts == Collect(outcomes, ConflictFrom))
  {
    entries, conflicts, rejected := [], [], false;
    ghost var outcomes := Map(keys, JudgedBy(judge, bs, place));
    for i := 0 to |keys|
      invariant entries == Collect(outcomes[..i], EntryFrom)
      invariant conflicts == Collect(outcomes[..i], ConflictFrom)
      invariant Unspellable !in outcomes[..i]
    {
      var key := keys[i];
      PlaceOccupied(bs, place, key);
      assert key in keys;
      var outcome := judge(key, grouped[key]);
      assert outcome == outcomes[i];
      TakeOne(outcomes, i);
      CollectTakeOne(outcomes, i, EntryFrom);
      CollectTakeOne(outcomes, i, ConflictFrom);
      match outcome {
        case Entered(entry) => entries := entries + [entry];
        case Conflicting(problem) => conflicts := conflicts + [problem];
        case Unspellable => return entries, conflicts, true;
      }
    }
    assert outcomes[..|keys|] == outcomes;
  }

  method PlanWith(lay: Layout, m: Manifest) returns (r: PlanOutcome)
    ensures r == PlanOf(lay, m)
  {
    if !m.IsFrozen() {
      return ManifestNotFrozen;
    }
    var problems, grouped, rejected := GroupBindings(lay, m.bindings);
    if rejected {
      return PathRejected;
    }
    var keys := SortedPlaces(m.bindings, PlaceOf(lay), grouped);
    var entries, conflicts;
    entries, conflicts, rejected := PlanPlaces(Judger(lay), keys, grouped, m.bindings, PlaceOf(lay));
    if rejected {
      return PathRejected;
    }
    return Planned(TargetPlan(m.consumerTaskRef, entries, Sort(problems + conflicts, ByKind)));
  }

  /** `materialise_plan`. */
  method MaterialisePlan(env: Platform, m: Manifest, rules: TargetRules) returns (r: PlanOutcome)
    ensures r == PlanOf(LayoutOf(env, rules), m)
  {
    r := PlanWith(LayoutOf(env, rules), m);
  }

  // ----------------------------------------------------------------------- what a plan promises

  lemma ImageOf<T, U>(s: seq<T>, f: T -> U, y: U) returns (x: T)
    requires y in Map(s, f)
    ensures x in s && f(x) == y
  {
    var i :| 0 <= i < |s| && Map(s, f)[i] == y;
    x := s[i];
  }

  lemma ImageIn<T, U>(s: seq<T>, f: T -> U, x: T)
    requires x in s
    ensures f(x) in Map(s, f)
  {
    var i :| 0 <= i < |s| && s[i] == x;
    assert Map(s, f)[i] == f(x);
  }

  lemma ContestedDiffer(members: seq<Binding>) returns (b: Binding, b': Binding)
    requires Contested(members)
    ensures b in members && b' in members && HashOf(b) != HashOf(b')
  {
    var hashes := Map(members, HashOf);
    var distinct := SortedSet(hashes);
    SortedSetStrict(hashes);
    assert distinct[0] != distinct[1] && distinct[0] in distinct && distinct[1] in distinct;
    b := ImageOf(members, HashOf, distinct[0]);
    b' := ImageOf(members, HashOf, distinct[1]);
  }

  lemma DifferContested(members: seq<Binding>, b: Binding, b': Binding)
    requires b in members && b' in members && HashOf(b) != HashOf(b')
    ensures Contested(members)
  {
    var hashes := Map(members, HashOf);
    SortedSetStrict(hashes);
    ImageIn(members, HashOf, b);
    ImageIn(members, HashOf, b');
    assert HashOf(b) in SortedSet(hashes) && HashOf(b') in SortedSet(hashes);
  }

  lemma ContestedIff(members: seq<Binding>)
    ensures Contested(members) <==> exists b, b' :: b in members && b' in members && HashOf(b) != HashOf(b')
  {
    if Contested(members) {
      var b, b' := ContestedDiffer(members);
    }
    if b, b' :| b in members && b' in members && HashOf(b) != HashOf(b') {
      DifferContested(members, b, b');
    }
  }

  /** Two bindings with different contents are never aimed at one place. */
  ghost predicate Agree(bs: seq<Binding>, place: Binding -> Option<string>) {
    forall b, b' :: b in bs && b' in bs && place(b).Some? && place(b) == place(b') ==> HashOf(b) == HashOf(b')
  }

  ghost predicate NoneEscapes(lay: Layout, bs: seq<Binding>) {
    forall b :: b in bs ==> PlaceOf(lay)(b).Some?
  }

  lemma UncontestedIff(bs: seq<Binding>, place: Binding -> Option<string>)
    ensures Agree(bs, place) <==> forall key :: key in Places(bs, place) ==> !Contested(MembersAt(bs, place, key))
  {
    forall key | key in Places(bs, place) && Agree(bs, place) ensures !Contested(MembersAt(bs, place, key)) {
      ContestedIff(MembersAt(bs, place, key));
      forall b | b in MembersAt(bs, place, key) ensures b in bs && place(b) == Some(key) {
        FilterMember(bs, AtPlace(place, key), b);
      }
    }
    forall b, b' | b in bs && b' in bs && place(b).Some? && place(b) == place(b') && HashOf(b) != HashOf(b')
      ensures exists key :: key in Places(bs, place) && Contested(MembersAt(bs, place, key))
    {
      var key := place(b).value;
      FilterMember(bs, AtPlace(place, key), b);
      FilterMember(bs, AtPlace(place, key), b');
      ContestedIff(MembersAt(bs, place, key));
      PlaceOccupied(bs, place, key);
    }
  }

  lemma OutcomeAt(lay: Layout, bs: seq<Binding>, i: nat)
    requires i < |Places(bs, PlaceOf(lay))|
    ensures var key := Places(bs, PlaceOf(lay))[i];
      var members := MembersAt(bs, PlaceOf(lay), key);
      members != [] && Outcomes(lay, bs)[i] == Judge(lay, key, members)
  {
    var key := Places(bs, PlaceOf(lay))[i];
    assert key in Places(bs, PlaceOf(lay));
    PlaceOccupied(bs, PlaceOf(lay), key);
  }

  /** When a plan has no problems: nothing leaves the namespace and no place is contested. In
      particular two different contents at one place always make the plan not ok. */
  lemma PlanOkIff(lay: Layout, m: Manifest, plan: TargetPlan)
    requires PlanOf(lay, m) == Planned(plan)
    ensures plan.Ok() <==> NoneEscapes(lay, m.bindings) && Agree(m.bindings, PlaceOf(lay))
  {
    var outcomes := Outcomes(lay, m.bindings);
    CollectEmpty(m.bindings, InvalidIn(lay));
    CollectEmpty(outcomes, ConflictFrom);
    UncontestedIff(m.bindings, PlaceOf(lay));
    assert NoneEscapes(lay, m.bindings) <==> Collect(m.bindings, InvalidIn(lay)) == [];
    assert Agree(m.bindings, PlaceOf(lay)) <==> Collect(outcomes, ConflictFrom) == [] by {
      ConflictsIff(lay, m.bindings);
    }
  }

  lemma ConflictsIff(lay: Layout, bs: seq<Binding>)
    ensures (forall o :: o in Outcomes(lay, bs) ==> ConflictFrom(o).None?) <==>
            forall key :: key in Places(bs, PlaceOf(lay)) ==> !Contested(MembersAt(bs, PlaceOf(lay), key))
  {
    var keys := Places(bs, PlaceOf(lay));
    forall i | 0 <= i < |keys|
      ensures ConflictFrom(Outcomes(lay, bs)[i]).Some? <==> Contested(MembersAt(bs, PlaceOf(lay), keys[i]))
    {
      OutcomeAt(lay, bs, i);
    }
  }

  function IdsOf(e: PlanEntry): seq<string> { e.bindingIds }

  function GroupAt(bs: seq<Binding>, place: Binding -> Option<string>): string -> seq<Binding> {
    (key: string) => MembersAt(bs, place, key)
  }

  function KeyAmong(place: Binding -> Option<string>, keys: seq<string>): Binding -> bool {
    (b: Binding) => place(b).Some? && place(b).value in keys
  }

  lemma {:induction false} GroupsPartition(bs: seq<Binding>, place: Binding -> Option<string>, keys: seq<string>)
    requires Distinct(keys)
    ensures SameElements(FlatMap(keys, GroupAt(bs, place)), Filter(bs, KeyAmong(place, keys)))
  {
    if keys == [] {
      if Filter(bs, KeyAmong(place, keys)) != [] {
        FilterMember(bs, KeyAmong(place, keys), Filter(bs, KeyAmong(place, keys))[0]);
      }
    } else {
      GroupsPartition(bs, place, keys[1..]);
      assert keys[0] !in keys[1..];
      assert keys == [keys[0]] + keys[1..];
      FilterSplit(bs, AtPlace(place, keys[0]), KeyAmong(place, keys[1..]), KeyAmong(place, keys));
    }
  }

  /** The entries stand for the groups, place by place. */
  ghost predicate EntryMatches(lay: Layout, e: PlanEntry, members: seq<Binding>) {
    && members != [] && lay.target(members[0]).Some? && lay.spell(lay.target(members[0]).value) == Some(e.target)
    && e.contentHash == HashOf(members[0]) && !Contested(members)
    && SameElements(e.bindingIds, Map(members, BindingIdOf))
  }

  lemma EntriesJudged(lay: Layout, m: Manifest, plan: TargetPlan)
    requires PlanOf(lay, m) == Planned(plan) && plan.Ok()
    ensures var keys := Places(m.bindings, PlaceOf(lay));
      |plan.entries| == |keys| && forall i :: 0 <= i < |keys| ==>
        Judge(lay, keys[i], MembersAt(m.bindings, PlaceOf(lay), keys[i])) == Entered(plan.entries[i])
  {
    var keys := Places(m.bindings, PlaceOf(lay));
    var outcomes := Outcomes(lay, m.bindings);
    CollectEmpty(outcomes, ConflictFrom);
    forall o | o in outcomes ensures EntryFrom(o).Some? {
      assert o != Unspellable && ConflictFrom(o).None?;
    }
    CollectAll(outcomes, EntryFrom);
    forall i | 0 <= i < |keys|
      ensures Judge(lay, keys[i], MembersAt(m.bindings, PlaceOf(lay), keys[i])) == Entered(plan.entries[i])
    {
      OutcomeAt(lay, m.bindings, i);
    }
  }

  lemma EntriesMatch(lay: Layout, m: Manifest, plan: TargetPlan)
    requires PlanOf(lay, m) == Planned(plan) && plan.Ok()
    ensures var keys := Places(m.bindings, PlaceOf(lay));
      |plan.entries| == |keys| && forall i :: 0 <= i < |keys| ==>
        EntryMatches(lay, plan.entries[i], MembersAt(m.bindings, PlaceOf(lay), keys[i]))
  {
    var keys := Places(m.bindings, PlaceOf(lay));
    EntriesJudged(lay, m, plan);
    forall i | 0 <= i < |keys|
      ensures EntryMatches(lay, plan.entries[i], MembersAt(m.bindings, PlaceOf(lay), keys[i]))
    {
      OutcomeAt(lay, m.bindings, i);
      JudgedMatches(lay, keys[i], MembersAt(m.bindings, PlaceOf(lay), keys[i]), plan.entries[i]);
    }
  }

  lemma JudgedMatches(lay: Layout, key: string, members: seq<Binding>, e: PlanEntry)
    requires Judge(lay, key, members) == Entered(e)
    ensures EntryMatches(lay, e, members)
  {
    SortElements(Map(members, BindingIdOf), ByText);
  }

  lemma {:induction false} IdsGathered(lay: Layout, bs: seq<Binding>, keys: seq<string>, entries: seq<PlanEntry>)
    requires |entries| == |keys|
    requires forall i :: 0 <= i < |keys| ==> EntryMatches(lay, entries[i], MembersAt(bs, PlaceOf(lay), keys[i]))
    ensures SameElements(FlatMap(entries, IdsOf), Map(FlatMap(keys, GroupAt(bs, PlaceOf(lay))), BindingIdOf))
  {
    if keys != [] {
      IdsGathered(lay, bs, keys[1..], entries[1..]);
      MapConcat(GroupAt(bs, PlaceOf(lay))(keys[0]), FlatMap(keys[1..], GroupAt(bs, PlaceOf(lay))), BindingIdOf);
    }
  }

  /** The partition, first half: a plan without problems lists every binding id in exactly one entry. */
  lemma EveryBindingPlacedOnce(lay: Layout, m: Manifest, plan: TargetPlan)
    requires PlanOf(lay, m) == Planned(plan) && plan.Ok()
    ensures SameElements(FlatMap(plan.entries, IdsOf), Map(m.bindings, BindingIdOf))
  {
    var (place, keys) := (PlaceOf(lay), Places(m.bindings, PlaceOf(lay)));
    PlanOkIff(lay, m, plan);
    EntriesMatch(lay, m, plan);
    SortedSetDistinct(Collect(m.bindings, place));
    GroupsPartition(m.bindings, place, keys);
    forall b | b in m.bindings ensures KeyAmong(place, keys)(b) {
      CollectMember(m.bindings, place, place(b).value);
      SortedSetStrict(Collect(m.bindings, place));
    }
    FilterAll(m.bindings, KeyAmong(place, keys));
    IdsGathered(lay, m.bindings, keys, plan.entries);
    MapReorder(FlatMap(keys, GroupAt(m.bindings, place)), m.bindings, BindingIdOf);
  }

  // ------------------------------------------------------------------- where the entries are written

  /** The target as it is written. */
  function Written(lay: Layout, b: Binding): Option<ResourceIdentity> {
    match lay.target(b)
    case None => None
    case Some(t) => lay.spell(t)
  }

  /** Bindings of one place have one written target. */
  ghost predicate OneSpelling(lay: Layout, bs: seq<Binding>) {
    forall b, b' :: b in bs && b' in bs && PlaceOf(lay)(b).Some? && PlaceOf(lay)(b) == PlaceOf(lay)(b') ==>
      Written(lay, b) == Written(lay, b')
  }

  /** Writing the target leaves it at the binding's place, inside the namespace. */
  ghost predicate KeepsPlace(lay: Layout, b: Binding) {
    var w := Written(lay, b);
    w.Some? && PlaceOf(lay)(b) == Some(lay.key(w.value)) && !lay.escapes(w.value)
  }

  /** No two entries are written to one target. */
  ghost predicate Apart(entries: seq<PlanEntry>) {
    forall i, j :: 0 <= i < j < |entries| ==> entries[i].target != entries[j].target
  }

  /** The entry is written at the place of the binding, and carries the binding's content. */
  ghost predicate Holds(lay: Layout, e: PlanEntry, b: Binding) {
    PlaceOf(lay)(b) == Some(lay.key(e.target)) && !lay.escapes(e.target) && e.contentHash == HashOf(b)
  }

  /** Every entry holds every binding that it lists. */
  ghost predicate WellPlaced(lay: Layout, bs: seq<Binding>, entries: seq<PlanEntry>) {
    forall e, b :: e in entries && b in bs && b.bindingId in e.bindingIds ==> Holds(lay, e, b)
  }

  ghost predicate UniqueIds(bs: seq<Binding>) {
    forall b, b' :: b in bs && b' in bs && b.bindingId == b'.bindingId ==> b == b'
  }

  /** The number of the entry of a binding's place. */
  ghost function EntryOf(lay: Layout, m: Manifest, plan: TargetPlan, b: Binding): (i: nat)
    requires PlanOf(lay, m) == Planned(plan) && plan.Ok() && b in m.bindings
    ensures i < |plan.entries| == |Places(m.bindings, PlaceOf(lay))|
    ensures PlaceOf(lay)(b) == Some(Places(m.bindings, PlaceOf(lay))[i])
  {
    var (place, keys) := (PlaceOf(lay), Places(m.bindings, PlaceOf(lay)));
    PlanOkIff(lay, m, plan);
    EntriesMatch(lay, m, plan);
    FilterMember(m.bindings, AtPlace(place, place(b).value), b);
    PlaceOccupied(m.bindings, place, place(b).value);
    IndexOf(keys, place(b).value)
  }

  lemma SpelledAlike(lay: Layout, bs: seq<Binding>, b: Binding, b': Binding, e: PlanEntry)
    requires OneSpelling(lay, bs) && b in bs && b' in bs && PlaceOf(lay)(b).Some? && PlaceOf(lay)(b) == PlaceOf(lay)(b')
    requires lay.target(b').Some? && lay.spell(lay.target(b').value) == Some(e.target)
    ensures Written(lay, b) == Some(e.target)
  {
  }

  /** What the entry of a place is, said of any binding of that place. */
  lemma EntryIs(lay: Layout, m: Manifest, plan: TargetPlan, b: Binding)
    requires PlanOf(lay, m) == Planned(plan) && plan.Ok() && b in m.bindings && OneSpelling(lay, m.bindings)
    ensures var e := plan.entries[EntryOf(lay, m, plan, b)];
      Written(lay, b) == Some(e.target) && e.contentHash == HashOf(b) && b.bindingId in e.bindingIds
  {
    var (place, i) := (PlaceOf(lay), EntryOf(lay, m, plan, b));
    var (key, e) := (Places(m.bindings, place)[i], plan.entries[i]);
    EntriesMatch(lay, m, plan);
    EntryOfMember(lay, m.bindings, key, e, b);
  }

  lemma EntryOfMember(lay: Layout, bs: seq<Binding>, key: string, e: PlanEntry, b: Binding)
    requires EntryMatches(lay, e, MembersAt(bs, PlaceOf(lay), key)) && OneSpelling(lay, bs)
    requires b in bs && PlaceOf(lay)(b) == Some(key)
    ensures Written(lay, b) == Some(e.target) && e.contentHash == HashOf(b) && b.bindingId in e.bindingIds
  {
    var members := MembersAt(bs, PlaceOf(lay), key);
    FilterMember(bs, AtPlace(PlaceOf(lay), key), b);
    FilterMember(bs, AtPlace(PlaceOf(lay), key), members[0]);
    SpelledAlike(lay, bs, b, members[0], e);
    ListedIn(e, lay, members, b);
  }

  lemma ListedIn(e: PlanEntry, lay: Layout, members: seq<Binding>, b: Binding)
    requires EntryMatches(lay, e, members) && b in members
    ensures b.bindingId in e.bindingIds && e.contentHash == HashOf(b)
  {
    ContestedIff(members);
    SameMembers(e.bindingIds, Map(members, BindingIdOf));
    var j :| 0 <= j < |members| && members[j] == b;
    assert Map(members, BindingIdOf)[j] in e.bindingIds;
    assert members[0] in members;
  }

  /** A binding whose place is that of the entry with a given number. */
  lemma Occupant(lay: Layout, m: Manifest, plan: TargetPlan, i: nat) returns (b: Binding)
    requires PlanOf(lay, m) == Planned(plan) && plan.Ok() && i < |plan.entries|
    ensures b in m.bindings && EntryOf(lay, m, plan, b) == i
  {
    var (place, keys) := (PlaceOf(lay), Places(m.bindings, PlaceOf(lay)));
    EntriesMatch(lay, m, plan);
    b := MembersAt(m.bindings, place, keys[i])[0];
    FilterMember(m.bindings, AtPlace(place, keys[i]), b);
    SortedSetDistinct(Collect(m.bindings, place));
  }

  /** With ids of their own, bindings are listed by the entry of their place only. */
  lemma ListedByPlace(lay: Layout, m: Manifest, plan: TargetPlan, i: nat, b: Binding)
    requires PlanOf(lay, m) == Planned(plan) && plan.Ok() && UniqueIds(m.bindings)
    requires i < |plan.entries| && b in m.bindings && b.bindingId in plan.entries[i].bindingIds
    ensures EntryOf(lay, m, plan, b) == i
  {
    var (place, keys) := (PlaceOf(lay), Places(m.bindings, PlaceOf(lay)));
    EntriesMatch(lay, m, plan);
    var members := MembersAt(m.bindings, place, keys[i]);
    SameMembers(plan.entries[i].bindingIds, Map(members, BindingIdOf));
    var j :| 0 <= j < |members| && Map(members, BindingIdOf)[j] == b.bindingId;
    FilterMember(m.bindings, AtPlace(place, keys[i]), members[j]);
    assert members[j] == b;
    SortedSetDistinct(Collect(m.bindings, place));
  }

  /** Two entries of an ok plan are written to one target exactly when two bindings of different places
      have one written target. */
  lemma ApartIff(lay: Layout, m: Manifest, plan: TargetPlan)
    requires PlanOf(lay, m) == Planned(plan) && plan.Ok() && OneSpelling(lay, m.bindings)
    ensures Apart(plan.entries) <==> forall b, b' :: b in m.bindings && b' in m.bindings ==>
              PlaceOf(lay)(b) == PlaceOf(lay)(b') || Written(lay, b) != Written(lay, b')
  {
    if Apart(plan.entries) {
      forall b, b' | b in m.bindings && b' in m.bindings && PlaceOf(lay)(b) != PlaceOf(lay)(b')
        ensures Written(lay, b) != Written(lay, b')
      {
        var (i, j) := (EntryOf(lay, m, plan, b), EntryOf(lay, m, plan, b'));
        EntryIs(lay, m, plan, b);
        EntryIs(lay, m, plan, b');
        assert plan.entries[if i < j then i else j].target != plan.entries[if i < j then j else i].target;
      }
    } else {
      var i, j :| 0 <= i < j < |plan.entries| && plan.entries[i].target == plan.entries[j].target;
      var b := Occupant(lay, m, plan, i);
      var b' := Occupant(lay, m, plan, j);
      EntryIs(lay, m, plan, b);
      EntryIs(lay, m, plan, b');
      SortedSetDistinct(Collect(m.bindings, PlaceOf(lay)));
      assert PlaceOf(lay)(b) != PlaceOf(lay)(b') && Written(lay, b) == Written(lay, b');
    }
  }

  lemma PlacedKeeps(lay: Layout, m: Manifest, plan: TargetPlan, b: Binding)
    requires PlanOf(lay, m) == Planned(plan) && plan.Ok() && OneSpelling(lay, m.bindings) && b in m.bindings
    requires WellPlaced(lay, m.bindings, plan.entries)
    ensures KeepsPlace(lay, b)
  {
    EntryIs(lay, m, plan, b);
    assert Holds(lay, plan.entries[EntryOf(lay, m, plan, b)], b);
  }

  lemma KeptHolds(lay: Layout, m: Manifest, plan: TargetPlan, i: nat, b: Binding)
    requires PlanOf(lay, m) == Planned(plan) && plan.Ok() && OneSpelling(lay, m.bindings) && UniqueIds(m.bindings)
    requires i < |plan.entries| && b in m.bindings && b.bindingId in plan.entries[i].bindingIds && KeepsPlace(lay, b)
    ensures Holds(lay, plan.entries[i], b)
  {
    ListedByPlace(lay, m, plan, i, b);
    EntryIs(lay, m, plan, b);
  }

  /** The entries of an ok plan are well placed exactly when every binding keeps its place; they are then
      apart as well. */
  lemma WellPlacedIff(lay: Layout, m: Manifest, plan: TargetPlan)
    requires PlanOf(lay, m) == Planned(plan) && plan.Ok() && OneSpelling(lay, m.bindings) && UniqueIds(m.bindings)
    ensures WellPlaced(lay, m.bindings, plan.entries) <==> forall b :: b in m.bindings ==> KeepsPlace(lay, b)
    ensures WellPlaced(lay, m.bindings, plan.entries) ==> Apart(plan.entries)
  {
    if WellPlaced(lay, m.bindings, plan.entries) {
      forall b | b in m.bindings ensures KeepsPlace(lay, b) {
        PlacedKeeps(lay, m, plan, b);
      }
      ApartIff(lay, m, plan);
    } else if forall b :: b in m.bindings ==> KeepsPlace(lay, b) {
      forall e, b | e in plan.entries && b in m.bindings && b.bindingId in e.bindingIds ensures Holds(lay, e, b) {
        var i :| 0 <= i < |plan.entries| && plan.entries[i] == e;
        KeptHolds(lay, m, plan, i, b);
      }
      assert false;
    }
  }

  // --------------------------------------------------------------------------- the rules of a target

  lemma OneSpellingOf(env: Platform, rules: TargetRules, bs: seq<Binding>)
    ensures OneSpelling(LayoutOf(env, rules), bs)
  {
  }

  /** Folding the target leaves nothing for the normaliser to change: what a caller can look at. */
  predicate Settled(env: Platform, rules: TargetRules, b: Binding) {
    var t := TargetFor(env, rules, b);
    rules.caseInsensitive && t.Some? ==> env.normalise(env.fold(t.value.path)) == env.fold(t.value.path)
  }

  /** The laws of case folding: a folded path stays as it is, and folding does not invent `..`. Nothing is
      asked of the normaliser; it need not be idempotent. */
  ghost predicate FoldingLaws(env: Platform) {
    && (forall p :: env.fold(env.fold(p)) == env.fold(p))
    && (forall p :: Escaping(env.fold(p)) ==> Escaping(p))
  }

  /** Normalising, which only leaves characters out and separates segments, keeps a folded path folded. */
  ghost predicate StaysFolded(env: Platform) {
    forall p :: env.fold(env.normalise(env.fold(p))) == env.normalise(env.fold(p))
  }

  /** A settled target keeps its place, and no other does. */
  lemma SettledKeepsPlace(env: Platform, rules: TargetRules, b: Binding)
    requires PlaceOf(LayoutOf(env, rules))(b).Some? && Written(LayoutOf(env, rules), b).Some?
    requires rules.caseInsensitive ==> FoldingLaws(env)
    ensures Settled(env, rules, b) ==> KeepsPlace(LayoutOf(env, rules), b)
    ensures StaysFolded(env) && KeepsPlace(LayoutOf(env, rules), b) ==> Settled(env, rules, b)
  {
  }

  /** The partition, second half, whatever the platform does. With an ok plan, all entries are written to
      different targets, each at the place of the bindings that it lists, inside the namespace and with their
      content, exactly when writing a target leaves it at its place, for every target of the manifest. */
  lemma EntriesArePlaces(env: Platform, rules: TargetRules, m: Manifest, plan: TargetPlan)
    requires PlanOf(LayoutOf(env, rules), m) == Planned(plan) && plan.Ok() && UniqueIds(m.bindings)
    ensures var lay := LayoutOf(env, rules);
      Apart(plan.entries) && WellPlaced(lay, m.bindings, plan.entries) <==>
        forall b :: b in m.bindings ==> KeepsPlace(lay, b)
  {
    OneSpellingOf(env, rules, m.bindings);
    WellPlacedIff(LayoutOf(env, rules), m, plan);
  }

  /** The same with a condition on the target's text. It is met always when case matters, and otherwise when
      the normaliser leaves the folded target as it is. */
  lemma SettledTargetsPlaced(env: Platform, rules: TargetRules, m: Manifest, plan: TargetPlan)
    requires PlanOf(LayoutOf(env, rules), m) == Planned(plan) && plan.Ok() && UniqueIds(m.bindings)
    requires rules.caseInsensitive ==> FoldingLaws(env)
    ensures var lay := LayoutOf(env, rules);
      var settled := forall b :: b in m.bindings ==> Settled(env, rules, b);
      && (settled ==> Apart(plan.entries) && WellPlaced(lay, m.bindings, plan.entries))
      && (StaysFolded(env) && Apart(plan.entries) && WellPlaced(lay, m.bindings, plan.entries) ==> settled)
  {
    var lay := LayoutOf(env, rules);
    EntriesArePlaces(env, rules, m, plan);
    PlanOkIff(lay, m, plan);
    OneSpellingOf(env, rules, m.bindings);
    forall b | b in m.bindings
      ensures Settled(env, rules, b) ==> KeepsPlace(lay, b)
      ensures StaysFolded(env) && KeepsPlace(lay, b) ==> Settled(env, rules, b)
    {
      EntryIs(lay, m, plan, b);
      SettledKeepsPlace(env, rules, b);
    }
  }

  /** Whatever the platform does: two entries of an ok plan share a written target exactly when two targets
      that are grouped apart are respelled as one. */
  lemma EntriesApart(env: Platform, rules: TargetRules, m: Manifest, plan: TargetPlan)
    requires PlanOf(LayoutOf(env, rules), m) == Planned(plan) && plan.Ok()
    ensures var lay := LayoutOf(env, rules);
      Apart(plan.entries) <==> forall b, b' :: b in m.bindings && b' in m.bindings ==>
        PlaceOf(lay)(b) == PlaceOf(lay)(b') || Written(lay, b) != Written(lay, b')
  {
    OneSpellingOf(env, rules, m.bindings);
    ApartIff(LayoutOf(env, rules), m, plan);
  }

  /** An entry of an ok plan is written outside the namespace exactly when some target of the manifest is
      respelled to leave it. */
  lemma EntriesInside(env: Platform, rules: TargetRules, m: Manifest, plan: TargetPlan)
    requires PlanOf(LayoutOf(env, rules), m) == Planned(plan) && plan.Ok()
    ensures (forall e :: e in plan.entries ==> !Escaping(e.target.path)) <==>
              forall b :: b in m.bindings ==>
                var w := Written(LayoutOf(env, rules), b); w.Some? && !Escaping(w.value.path)
  {
    var lay := LayoutOf(env, rules);
    OneSpellingOf(env, rules, m.bindings);
    forall b | b in m.bindings
      ensures Written(lay, b).Some? && exists e :: e in plan.entries && e.target == Written(lay, b).value
    {
      EntryIs(lay, m, plan, b);
      assert plan.entries[EntryOf(lay, m, plan, b)] in plan.entries;
    }
    forall e | e in plan.entries ensures exists b :: b in m.bindings && Written(lay, b) == Some(e.target) {
      var i :| 0 <= i < |plan.entries| && plan.entries[i] == e;
      var b := Occupant(lay, m, plan, i);
      EntryIs(lay, m, plan, b);
    }
  }

  /** A plan is made when the manifest is frozen and every target can be made and written. */
  lemma PlanMade(lay: Layout, m: Manifest)
    requires m.IsFrozen() && forall b :: b in m.bindings ==> Written(lay, b).Some?
    ensures PlanOf(lay, m).Planned?
  {
    var keys := Places(m.bindings, PlaceOf(lay));
    forall i | 0 <= i < |keys| ensures Outcomes(lay, m.bindings)[i] != Unspellable {
      OutcomeAt(lay, m.bindings, i);
      var b := MembersAt(m.bindings, PlaceOf(lay), keys[i])[0];
      FilterMember(m.bindings, AtPlace(PlaceOf(lay), keys[i]), b);
    }
  }

  /** What the normaliser does to three texts: it strips a path before it looks at its segments, so it
      uncovers a blank that it does not strip. */
  ghost predicate StripsOnce(env: Platform) {
    && env.normalise(" ./ a") == " a" && env.normalise(" a") == "a" && env.normalise("a") == "a"
    && env.fold(" a") == " a" && env.fold("a") == "a"
  }

  /** Two contents at one target: a source path " ./ a", which the normaliser makes of "./ ./ a", is grouped
      under " a" and written to "a", where another content already goes; the plan reports nothing. */
  lemma TwoContentsOneTarget(env: Platform, rules: TargetRules, m: Manifest, b: Binding, b': Binding)
    requires StripsOnce(env) && rules.caseInsensitive && !rules.preserveSourceNamespace
    requires rules.portPrefixes == map[] && !Blank(rules.namespace)
    requires m == Manifest(m.consumerTaskRef, [b, b'], []) && HashOf(b) != HashOf(b')
    requires b.sourceIdentity.path == " ./ a" && b'.sourceIdentity.path == "a"
    ensures var r := PlanOf(LayoutOf(env, rules), m);
      && r.Planned? && r.plan.Ok()
      && exists e, e' :: e in r.plan.entries && e' in r.plan.entries
                         && e.target == e'.target && e.contentHash != e'.contentHash
  {
    var lay := LayoutOf(env, rules);
    PathsOfTwo(env, rules, b, b');
    assert b in m.bindings && b' in m.bindings;
    PlanMade(lay, m);
    var plan := PlanOf(lay, m).plan;
    PlanOkIff(lay, m, plan);
    OneSpellingOf(env, rules, m.bindings);
    EntryIs(lay, m, plan, b);
    EntryIs(lay, m, plan, b');
    var (e, e') := (plan.entries[EntryOf(lay, m, plan, b)], plan.entries[EntryOf(lay, m, plan, b')]);
    assert e in plan.entries && e' in plan.entries && e.target == e'.target;
  }

  lemma PathsOfTwo(env: Platform, rules: TargetRules, b: Binding, b': Binding)
    requires StripsOnce(env) && rules.caseInsensitive && !rules.preserveSourceNamespace
    requires rules.portPrefixes == map[] && !Blank(rules.namespace)
    requires b.sourceIdentity.path == " ./ a" && b'.sourceIdentity.path == "a"
    ensures var lay := LayoutOf(env, rules);
      && PlaceOf(lay)(b) == Some(" a") && PlaceOf(lay)(b') == Some("a")
      && Written(lay, b) == Some(ResourceIdentity(rules.namespace, "a")) == Written(lay, b')
  {
    NotBlank(" ./ a", 4);
    NotBlank(" a", 1);
    NotBlank("a", 0);
    SegmentsPlain("a");
    SegmentsPlain(" a");
    assert |".."| == 2 && ".."[0] == '.';
  }

  /** The normaliser uncovers `..` in the same way. */
  ghost predicate UncoversDots(env: Platform) {
    && env.normalise(" ./ ../a") == " ../a" && env.normalise(" ../a") == "../a" && env.fold(" ../a") == " ../a"
  }

  /** Outside the namespace: a source path " ./ ../a", which the normaliser makes of "./ ./ ../a", has the
      target " ../a", in which no segment is `..`, and is written to "../a"; the plan reports nothing. */
  lemma WritesOutside(env: Platform, rules: TargetRules, m: Manifest, b: Binding)
    requires UncoversDots(env) && rules.caseInsensitive && !rules.preserveSourceNamespace
    requires rules.portPrefixes == map[] && !Blank(rules.namespace)
    requires m == Manifest(m.consumerTaskRef, [b], []) && b.sourceIdentity.path == " ./ ../a"
    ensures var r := PlanOf(LayoutOf(env, rules), m);
      r.Planned? && r.plan.Ok() && exists e :: e in r.plan.entries && Escaping(e.target.path)
  {
    var lay := LayoutOf(env, rules);
    DotsUncovered(env, rules, b);
    assert b in m.bindings;
    PlanMade(lay, m);
    PlanOkIff(lay, m, PlanOf(lay, m).plan);
    EntriesInside(env, rules, m, PlanOf(lay, m).plan);
  }

  lemma DotsSegments()
    ensures Segments(" ../a") == [" ..", "a"] && Segments("../a") == ["..", "a"]
  {
    SegmentsPlain("a");
    SegmentsSplit(" ..", "a");
    SegmentsSplit("..", "a");
    assert " .." + "/" + "a" == " ../a" && ".." + "/" + "a" == "../a";
  }

  lemma DotsEscape()
    ensures !Escaping(" ../a") && Escaping("../a")
  {
    DotsSegments();
    assert |" .."| != |".."| && |"a"| != |".."|;
    assert Segments("../a")[0] == "..";
  }

  lemma DotsUncovered(env: Platform, rules: TargetRules, b: Binding)
    requires UncoversDots(env) && rules.caseInsensitive && !rules.preserveSourceNamespace
    requires rules.portPrefixes == map[] && !Blank(rules.namespace) && b.sourceIdentity.path == " ./ ../a"
    ensures var lay := LayoutOf(env, rules);
      && PlaceOf(lay)(b) == Some(" ../a") && Written(lay, b) == Some(ResourceIdentity(rules.namespace, "../a"))
    ensures Escaping("../a")
  {
    NotBlank(" ./ ../a", 1);
    NotBlank(" ../a", 1);
    DotsEscape();
  }

  lemma NotBlank(t: string, i: nat)
    requires i < |t| && !IsSpace(t[i])
    ensures !Blank(t)
  {
  }
}
