/** Where the entries of a plan lie, said over the rules and the sources' own namespaces and paths. */
module PlanPlaces {
  import opened InputModel
  import opened Ordering
  import opened Sequences
  import opened Resolution
  import opened ResolutionFacts
  import opened ManifestCodec
  import opened TextLines
  import opened Materialisation

  // ------------------------------------------------------------------------------ joined texts

  /** The rules name a prefix for the binding's port; an empty one counts for nothing. */
  predicate Prefixed(rules: TargetRules, b: Binding) {
    b.inputPort in rules.portPrefixes && rules.portPrefixes[b.inputPort] != ""
  }

  /** The port's prefix, if it has one; the source's namespace, if it is preserved; the source's path: in this
      order, with slashes between. */
  predicate JoinedPath(rules: TargetRules, b: Binding, path: string) {
    var (ns, p) := (b.sourceIdentity.namespace, b.sourceIdentity.path);
    if Prefixed(rules, b) then
      var prefix := rules.portPrefixes[b.inputPort];
      path == (if rules.preserveSourceNamespace then prefix + "/" + ns + "/" + p else prefix + "/" + p)
    else path == (if rules.preserveSourceNamespace then ns + "/" + p else p)
  }

  lemma JoinedTarget(env: Platform, rules: TargetRules, b: Binding, path: string)
    requires JoinedPath(rules, b, path)
    ensures TargetFor(env, rules, b).Some? ==>
      TargetFor(env, rules, b).value == ResourceIdentity(rules.namespace, env.normalise(path))
    ensures TargetFor(env, rules, b).None? <==>
      Blank(rules.namespace) || Blank(path) || env.normalise(path) == ""
  {
    if Prefixed(rules, b) && rules.preserveSourceNamespace {
      var prefix := rules.portPrefixes[b.inputPort];
      var (ns, p) := (b.sourceIdentity.namespace, b.sourceIdentity.path);
      assert prefix + "/" + (ns + "/" + p) == prefix + "/" + ns + "/" + p;
    }
  }

  /** A path escapes exactly when `..` stands in it between slashes or at an end. */
  lemma EscapingIff(path: string)
    ensures Escaping(path) <==> exists i: nat :: DotsAt(path, i)
  {
    DotSegmentIff(path);
  }

  // ---------------------------------------------------------------------------- the entries

  /** The path under which a joined text is written: normalised, and where case does not matter folded and
      normalised again. */
  function WrittenPath(env: Platform, rules: TargetRules, path: string): string {
    if rules.caseInsensitive then env.normalise(env.fold(env.normalise(path))) else env.normalise(path)
  }

  /** The entry that lists a binding lies in the target namespace, at the joined text as it is written, and carries
      the binding's content. Where the normaliser leaves the joined text as it is and case matters, that is the
      joined text itself. */
  lemma EntryPath(env: Platform, rules: TargetRules, m: Manifest, plan: TargetPlan, i: nat, b: Binding, path: string)
    requires PlanOf(LayoutOf(env, rules), m) == Planned(plan) && plan.Ok() && UniqueIds(m.bindings)
    requires i < |plan.entries| && b in m.bindings && b.bindingId in plan.entries[i].bindingIds
    requires JoinedPath(rules, b, path)
    ensures plan.entries[i].target == ResourceIdentity(rules.namespace, WrittenPath(env, rules, path))
    ensures !rules.caseInsensitive && env.normalise(path) == path ==> plan.entries[i].target.path == path
    ensures plan.entries[i].contentHash == b.bound.contentHash
  {
    var lay := LayoutOf(env, rules);
    ListedByPlace(lay, m, plan, i, b);
    OneSpellingOf(env, rules, m.bindings);
    EntryIs(lay, m, plan, b);
    JoinedTarget(env, rules, b, path);
  }

  lemma MapMembers<T, U>(s: seq<T>, f: T -> U)
    ensures forall y :: y in Map(s, f) <==> exists x :: x in s && f(x) == y
  {
    forall y | y in Map(s, f) ensures exists x :: x in s && f(x) == y {
      var x := ImageOf(s, f, y);
    }
    forall x | x in s ensures f(x) in Map(s, f) {
      ImageIn(s, f, x);
    }
  }

  /** The artifacts and ports of an entry are those of the given bindings. */
  ghost predicate Sums(e: PlanEntry, members: seq<Binding>) {
    && (forall a :: a in e.artifactIds <==> exists b :: b in members && b.bound.artifactId == a)
    && (forall a :: a in e.inputPorts <==> exists b :: b in members && b.inputPort == a)
  }

  lemma JudgedSums(lay: Layout, key: string, members: seq<Binding>, e: PlanEntry)
    requires Judge(lay, key, members) == Entered(e)
    ensures Sums(e, members)
  {
    SortedSetStrict(Map(members, ArtifactIn));
    SortedSetStrict(Map(members, PortName));
    MapMembers(members, ArtifactIn);
    MapMembers(members, PortName);
  }

  function ListedBy(e: PlanEntry): Binding -> bool {
    (b: Binding) => b.bindingId in e.bindingIds
  }

  /** An entry names the artifacts and the ports of the bindings it lists, and no others. */
  lemma EntrySums(lay: Layout, m: Manifest, plan: TargetPlan, i: nat)
    requires PlanOf(lay, m) == Planned(plan) && plan.Ok() && UniqueIds(m.bindings) && i < |plan.entries|
    requires OneSpelling(lay, m.bindings)
    ensures Sums(plan.entries[i], Filter(m.bindings, ListedBy(plan.entries[i])))
  {
    var (place, e) := (PlaceOf(lay), plan.entries[i]);
    EntriesJudged(lay, m, plan);
    var key := Places(m.bindings, place)[i];
    JudgedSums(lay, key, MembersAt(m.bindings, place, key), e);
    forall b | b in m.bindings ensures AtPlace(place, key)(b) <==> ListedBy(e)(b) {
      if ListedBy(e)(b) {
        ListedByPlace(lay, m, plan, i, b);
      }
      if AtPlace(place, key)(b) {
        EntryIs(lay, m, plan, b);
        SortedSetDistinct(Collect(m.bindings, place));
      }
    }
    FilterAgrees(m.bindings, AtPlace(place, key), ListedBy(e));
  }

  // -------------------------------------------------------------------------- problems reported

  predicate Blames(p: Problem, b: Binding) {
    && p.inputPort == Some(b.inputPort) && p.requirementIds == [b.bound.requirementId]
    && p.candidates == [b.bound.artifactId]
  }

  predicate Concerns(p: Problem, b: Binding) {
    b.bound.requirementId in p.requirementIds && b.bound.artifactId in p.candidates && b.inputPort in p.inputPorts
  }

  lemma InvalidAt(lay: Layout, m: Manifest, plan: TargetPlan, b: Binding)
    requires PlanOf(lay, m) == Planned(plan) && b in m.bindings && lay.target(b).Some?
    requires lay.escapes(lay.target(b).value)
    ensures lay.invalid(b, lay.target(b).value) in plan.problems
  {
    var problem := lay.invalid(b, lay.target(b).value);
    assert InvalidIn(lay)(b) == Some(problem);
    CollectMember(m.bindings, InvalidIn(lay), problem);
    SortMembers(Collect(m.bindings, InvalidIn(lay)) + Collect(Outcomes(lay, m.bindings), ConflictFrom), ByKind);
  }

  /** Every target that leaves the namespace is among the problems, under its own requirement. */
  lemma EscapeReported(env: Platform, rules: TargetRules, m: Manifest, plan: TargetPlan, b: Binding, path: string,
                       i: nat)
    requires PlanOf(LayoutOf(env, rules), m) == Planned(plan) && b in m.bindings
    requires JoinedPath(rules, b, path) && DotsAt(env.normalise(path), i)
    ensures exists p :: p in plan.problems && p.kind == TargetPathInvalid && Blames(p, b)
  {
    var lay := LayoutOf(env, rules);
    JoinedTarget(env, rules, b, path);
    EscapingIff(env.normalise(path));
    InvalidAt(lay, m, plan, b);
    assert Blames(lay.invalid(b, lay.target(b).value), b);
  }

  /** The joined texts are one path when normalised, or fold alike where case does not matter. */
  predicate Meet(env: Platform, rules: TargetRules, path: string, path': string) {
    if rules.caseInsensitive then env.fold(env.normalise(path)) == env.fold(env.normalise(path'))
    else env.normalise(path) == env.normalise(path')
  }

  /** Every two contents that meet at one place are among the problems, with what concerns both. */
  lemma ConflictReported(env: Platform, rules: TargetRules, m: Manifest, plan: TargetPlan, b: Binding, b': Binding,
                         path: string, path': string)
    requires PlanOf(LayoutOf(env, rules), m) == Planned(plan) && b in m.bindings && b' in m.bindings
    requires JoinedPath(rules, b, path) && JoinedPath(rules, b', path') && Meet(env, rules, path, path')
    requires b.bound.contentHash != b'.bound.contentHash
    requires forall i: nat :: !DotsAt(env.normalise(path), i) && !DotsAt(env.normalise(path'), i)
    ensures exists p :: p in plan.problems && p.kind == TargetPathConflict && Concerns(p, b) && Concerns(p, b')
  {
    var lay := LayoutOf(env, rules);
    JoinedTarget(env, rules, b, path);
    JoinedTarget(env, rules, b', path');
    EscapingIff(env.normalise(path));
    EscapingIff(env.normalise(path'));
    var place := PlaceOf(lay);
    var key := place(b).value;
    assert place(b') == Some(key);
    FilterMember(m.bindings, AtPlace(place, key), b);
    FilterMember(m.bindings, AtPlace(place, key), b');
    PlaceOccupied(m.bindings, place, key);
    ConflictAt(lay, m, plan, key, b, b');
    ConflictNames(env, rules, key, MembersAt(m.bindings, place, key), b);
    ConflictNames(env, rules, key, MembersAt(m.bindings, place, key), b');
  }

  lemma ConflictAt(lay: Layout, m: Manifest, plan: TargetPlan, key: string, b: Binding, b': Binding)
    requires PlanOf(lay, m) == Planned(plan) && key in Places(m.bindings, PlaceOf(lay))
    requires b in MembersAt(m.bindings, PlaceOf(lay), key) && b' in MembersAt(m.bindings, PlaceOf(lay), key)
    requires HashOf(b) != HashOf(b')
    ensures lay.conflict(key, MembersAt(m.bindings, PlaceOf(lay), key)) in plan.problems
  {
    var members := MembersAt(m.bindings, PlaceOf(lay), key);
    var outcomes := Outcomes(lay, m.bindings);
    var i :| 0 <= i < |Places(m.bindings, PlaceOf(lay))| && Places(m.bindings, PlaceOf(lay))[i] == key;
    DifferContested(members, b, b');
    OutcomeAt(lay, m.bindings, i);
    assert ConflictFrom(outcomes[i]) == Some(lay.conflict(key, members));
    CollectMember(outcomes, ConflictFrom, lay.conflict(key, members));
    SortMembers(Collect(m.bindings, InvalidIn(lay)) + Collect(outcomes, ConflictFrom), ByKind);
  }

  lemma ConflictNames(env: Platform, rules: TargetRules, key: string, members: seq<Binding>, b: Binding)
    requires b in members
    ensures var p := LayoutOf(env, rules).conflict(key, members); p.kind == TargetPathConflict && Concerns(p, b)
  {
    SortedSetStrict(Map(members, RequirementIn));
    SortedSetStrict(Map(members, ArtifactIn));
    SortedSetStrict(Map(members, PortName));
    ImageIn(members, RequirementIn, b);
    ImageIn(members, ArtifactIn, b);
    ImageIn(members, PortName, b);
  }

  // ----------------------------------------------------------------- preserved source namespaces

  /** Both ports have the same prefix, or both none. */
  predicate SamePrefix(rules: TargetRules, b: Binding, b': Binding) {
    && (Prefixed(rules, b) <==> Prefixed(rules, b'))
    && (Prefixed(rules, b) ==> rules.portPrefixes[b.inputPort] == rules.portPrefixes[b'.inputPort])
  }

  /** The sources lie in different namespaces, each one segment. */
  predicate NamespacesDiffer(b: Binding, b': Binding) {
    && '/' !in b.sourceIdentity.namespace && '/' !in b'.sourceIdentity.namespace
    && b.sourceIdentity.namespace != b'.sourceIdentity.namespace
  }

  lemma CommonHead(h: string, a: string, a': string)
    requires h + a == h + a'
    ensures a == a'
  {
    assert (h + a)[|h|..] == a && (h + a')[|h|..] == a';
  }

  lemma CommonTail(t: string, a: string, a': string)
    requires a + t == a' + t
    ensures a == a'
  {
    assert |a| == |a'|;
    assert (a + t)[..|a|] == a && (a' + t)[..|a'|] == a';
  }

  lemma OneFirstSegment(n: string, n': string, p: string, p': string)
    requires '/' !in n && '/' !in n' && n + "/" + p == n' + "/" + p'
    ensures n == n'
  {
    var t := n + "/" + p;
    assert forall k :: 0 <= k < |n| ==> t[k] == n[k] && n[k] in n;
    assert forall k :: 0 <= k < |n'| ==> t[k] == n'[k] && n'[k] in n';
    assert t[|n|] == '/' && t[|n'|] == '/';
    assert t[..|n|] == n && t[..|n'|] == n';
  }

  lemma OneLastSegment(n: string, n': string, x: string, x': string)
    requires '/' !in n && '/' !in n' && x + "/" + n == x' + "/" + n'
    ensures n == n'
  {
    var t := x + "/" + n;
    assert forall k :: |x| < k < |t| ==> t[k] == n[k - |x| - 1] && t[k] in n;
    assert forall k :: |x'| < k < |t| ==> t[k] == n'[k - |x'| - 1] && t[k] in n';
    assert t[|x|] == '/' && t[|x'|] == '/';
    assert t[|x| + 1..] == n && t[|x'| + 1..] == n';
  }

  /** Preserved namespaces keep sources apart: under one prefix whatever their paths, and with one path whatever
      their prefixes. */
  lemma PreservedApart(rules: TargetRules, b: Binding, b': Binding, path: string, path': string)
    requires rules.preserveSourceNamespace && JoinedPath(rules, b, path) && JoinedPath(rules, b', path')
    requires NamespacesDiffer(b, b')
    requires SamePrefix(rules, b, b') || b.sourceIdentity.path == b'.sourceIdentity.path
    ensures path != path'
  {
    if path == path' {
      var (n, n') := (b.sourceIdentity.namespace, b'.sourceIdentity.namespace);
      var (p, p') := (b.sourceIdentity.path, b'.sourceIdentity.path);
      if SamePrefix(rules, b, b') {
        SamePrefixApart(rules, b, b', path);
      } else {
        SamePathApart(rules, b, b', path);
      }
    }
  }

  lemma SamePrefixApart(rules: TargetRules, b: Binding, b': Binding, path: string)
    requires rules.preserveSourceNamespace && JoinedPath(rules, b, path) && JoinedPath(rules, b', path)
    requires SamePrefix(rules, b, b')
    requires '/' !in b.sourceIdentity.namespace && '/' !in b'.sourceIdentity.namespace
    ensures b.sourceIdentity.namespace == b'.sourceIdentity.namespace
  {
    var (n, n') := (b.sourceIdentity.namespace, b'.sourceIdentity.namespace);
    var (p, p') := (b.sourceIdentity.path, b'.sourceIdentity.path);
    if Prefixed(rules, b) {
      var head := rules.portPrefixes[b.inputPort] + "/";
      assert path == head + (n + "/" + p) && path == head + (n' + "/" + p');
      CommonHead(head, n + "/" + p, n' + "/" + p');
    }
    OneFirstSegment(n, n', p, p');
  }

  /** A path without its last part. */
  function Before(rules: TargetRules, b: Binding): string {
    if Prefixed(rules, b) then rules.portPrefixes[b.inputPort] + "/" + b.sourceIdentity.namespace
    else b.sourceIdentity.namespace
  }

  lemma SamePathApart(rules: TargetRules, b: Binding, b': Binding, path: string)
    requires rules.preserveSourceNamespace && JoinedPath(rules, b, path) && JoinedPath(rules, b', path)
    requires b.sourceIdentity.path == b'.sourceIdentity.path
    requires '/' !in b.sourceIdentity.namespace && '/' !in b'.sourceIdentity.namespace
    ensures b.sourceIdentity.namespace == b'.sourceIdentity.namespace
  {
    var (n, n') := (b.sourceIdentity.namespace, b'.sourceIdentity.namespace);
    var tail := "/" + b.sourceIdentity.path;
    assert path == Before(rules, b) + tail && path == Before(rules, b') + tail;
    CommonTail(tail, Before(rules, b), Before(rules, b'));
    if Prefixed(rules, b) && Prefixed(rules, b') {
      OneLastSegment(n, n', rules.portPrefixes[b.inputPort], rules.portPrefixes[b'.inputPort]);
    } else {
      assert Prefixed(rules, b) ==> '/' in Before(rules, b);
      assert Prefixed(rules, b') ==> '/' in Before(rules, b');
    }
  }

  /** The normaliser leaves the joined text of the binding as it is. */
  ghost predicate KeptText(env: Platform, rules: TargetRules, b: Binding) {
    forall path :: JoinedPath(rules, b, path) ==> env.normalise(path) == path
  }

  function Joined(rules: TargetRules, b: Binding): (path: string)
    ensures JoinedPath(rules, b, path)
    ensures forall path' :: JoinedPath(rules, b, path') ==> path' == path
    ensures rules.preserveSourceNamespace ==> '/' in path
  {
    if rules.preserveSourceNamespace then Before(rules, b) + "/" + b.sourceIdentity.path
    else if Prefixed(rules, b) then rules.portPrefixes[b.inputPort] + "/" + b.sourceIdentity.path
    else b.sourceIdentity.path
  }

  /** The joined text cannot be made an identity: it or the namespace is blank, or nothing is left of it. */
  predicate Unplaceable(env: Platform, rules: TargetRules, b: Binding) {
    Blank(rules.namespace) || Blank(Joined(rules, b)) || env.normalise(Joined(rules, b)) == ""
  }

  /** Where case matters, a plan is refused outright exactly for a manifest that is not frozen, or one with an input
      that cannot be placed. */
  lemma RefusedOutright(env: Platform, rules: TargetRules, m: Manifest)
    requires !rules.caseInsensitive
    ensures var r := PlanOf(LayoutOf(env, rules), m);
      && (r == ManifestNotFrozen <==> !m.IsFrozen())
      && (r == PathRejected <==> m.IsFrozen() && exists b :: b in m.bindings && Unplaceable(env, rules, b))
  {
    var lay := LayoutOf(env, rules);
    forall b | b in m.bindings ensures lay.target(b).None? <==> Unplaceable(env, rules, b) {
      JoinedTarget(env, rules, b, Joined(rules, b));
    }
    if m.IsFrozen() && forall b :: b in m.bindings ==> !Unplaceable(env, rules, b) {
      PlanMade(lay, m);
    }
  }

  lemma KeptTarget(env: Platform, rules: TargetRules, b: Binding)
    requires rules.preserveSourceNamespace && !rules.caseInsensitive && !Blank(rules.namespace)
    requires KeptText(env, rules, b)
    ensures var (lay, path) := (LayoutOf(env, rules), Joined(rules, b));
      && lay.target(b) == Some(ResourceIdentity(rules.namespace, path)) == Written(lay, b)
      && PlaceOf(lay)(b) == if Escaping(path) then None else Some(path)
    ensures Escaping(Joined(rules, b)) <==> exists i: nat :: DotsAt(Joined(rules, b), i)
  {
    var path := Joined(rules, b);
    JoinedTarget(env, rules, b, path);
    assert env.normalise(path) == path && '/' in path && !IsSpace('/');
    EscapingIff(path);
  }

  /** Sources of different namespaces do not contest a place. Where the namespaces are preserved, case matters and
      the normaliser leaves the joined texts as they are, a plan is always made; and if different contents come from
      different namespaces, under one prefix or with one path, its only problems are targets that escape. */
  lemma NamespacesApart(env: Platform, rules: TargetRules, m: Manifest)
    requires rules.preserveSourceNamespace && !rules.caseInsensitive && !Blank(rules.namespace) && m.IsFrozen()
    requires forall b :: b in m.bindings ==> KeptText(env, rules, b)
    requires forall b, b' :: b in m.bindings && b' in m.bindings && HashOf(b) != HashOf(b') ==>
      NamespacesDiffer(b, b') && (SamePrefix(rules, b, b') || b.sourceIdentity.path == b'.sourceIdentity.path)
    ensures var r := PlanOf(LayoutOf(env, rules), m);
      r.Planned? && (r.plan.Ok() <==>
        forall b, i: nat :: b in m.bindings ==> !DotsAt(Joined(rules, b), i))
  {
    var lay := LayoutOf(env, rules);
    forall b | b in m.bindings
      ensures Written(lay, b).Some? && PlaceOf(lay)(b) in {None, Some(Joined(rules, b))}
      ensures PlaceOf(lay)(b).Some? <==> forall i: nat :: !DotsAt(Joined(rules, b), i)
    {
      KeptTarget(env, rules, b);
    }
    PlanMade(lay, m);
    PlanOkIff(lay, m, PlanOf(lay, m).plan);
    forall b, b' | b in m.bindings && b' in m.bindings && PlaceOf(lay)(b).Some? && PlaceOf(lay)(b) == PlaceOf(lay)(b')
      ensures HashOf(b) == HashOf(b')
    {
      if HashOf(b) != HashOf(b') {
        PreservedApart(rules, b, b', Joined(rules, b), Joined(rules, b'));
      }
    }
  }

  /** In any ok plan of such rules, sources of different namespaces under one prefix, or with one path, never share
      a target. */
  lemma EntriesOfNamespacesApart(env: Platform, rules: TargetRules, m: Manifest, plan: TargetPlan, i: nat, j: nat,
                                 b: Binding, b': Binding)
    requires PlanOf(LayoutOf(env, rules), m) == Planned(plan) && plan.Ok() && UniqueIds(m.bindings)
    requires rules.preserveSourceNamespace && !rules.caseInsensitive
    requires KeptText(env, rules, b) && KeptText(env, rules, b')
    requires b in m.bindings && b' in m.bindings && NamespacesDiffer(b, b')
    requires SamePrefix(rules, b, b') || b.sourceIdentity.path == b'.sourceIdentity.path
    requires i < |plan.entries| && b.bindingId in plan.entries[i].bindingIds
    requires j < |plan.entries| && b'.bindingId in plan.entries[j].bindingIds
    ensures plan.entries[i].target != plan.entries[j].target
  {
    var (path, path') := (Joined(rules, b), Joined(rules, b'));
    EntryPath(env, rules, m, plan, i, b, path);
    EntryPath(env, rules, m, plan, j, b', path');
    PreservedApart(rules, b, b', path, path');
  }

  /** Without either, they may: a port with the prefix "x" and one without, and the sources ("n", "a") and
      ("x", "n/a"), are joined to one text. */
  lemma PrefixMeetsNamespace(rules: TargetRules, b: Binding, b': Binding)
    requires rules.preserveSourceNamespace && Prefixed(rules, b) && rules.portPrefixes[b.inputPort] == "x"
    requires !Prefixed(rules, b')
    requires b.sourceIdentity == ResourceIdentity("n", "a") && b'.sourceIdentity == ResourceIdentity("x", "n/a")
    ensures NamespacesDiffer(b, b') && JoinedPath(rules, b, "x/n/a") && JoinedPath(rules, b', "x/n/a")
  {
    assert "x" + "/" + "n" + "/" + "a" == "x/n/a" && "x" + "/" + "n/a" == "x/n/a";
  }
}
