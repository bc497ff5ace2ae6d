/** The declared order of set ports, and when a resolved manifest is ready to dispatch. */
module ResolverOrdering {
  import opened InputModel
  import opened Ordering
  import opened Sequences
  import opened Resolution
  import opened ResolutionFacts
  import opened ResolverExactness

  function OnPort(port: string): Binding -> bool {
    (b: Binding) => b.inputPort == port
  }

  /** `InputManifest.for_port`. */
  function ForPort(m: Manifest, port: string): seq<Binding> {
    Filter(m.bindings, OnPort(port))
  }

  /** The key a set port sorts an entry by. */
  function Position(q: Question, spec: PortSpec): Entry -> Key {
    (e: Entry) =>
      if spec.ordering.Some? && PositionKey(q, spec, spec.ordering.value, e).Some?
      then [PositionKey(q, spec, spec.ordering.value, e).value] else []
  }

  function PositionAtom(q: Question, spec: PortSpec): Entry -> Atom {
    (e: Entry) => if Position(q, spec)(e) == [] then Num(0) else Position(q, spec)(e)[0]
  }

  function Ranker(q: Question, spec: PortSpec, sorted: seq<Atom>): Entry -> Binding {
    (e: Entry) => MakeBinding(q, e, IndexOf(sorted, PositionAtom(q, spec)(e)))
  }

  lemma AtomOrder(a: Atom, b: Atom)
    ensures KeyLe([a], [b]) <==> AtomLe(a, b)
    ensures KeyLt([a], [b]) <==> AtomLe(a, b) && a != b
  {
    AtomLeTotal(a, b);
    assert [a][1..] == [] == [b][1..] && [a][0] == a && [b][0] == b;
  }

  /** Positions in a strictly sorted list follow the order of its elements. */
  lemma RankOrder(sorted: seq<Atom>, a: Atom, b: Atom)
    requires Sorted(sorted, ByAtom) && Distinct(sorted) && a in sorted && b in sorted
    ensures IndexOf(sorted, a) <= IndexOf(sorted, b) <==> AtomLe(a, b)
  {
    var (i, j) := (IndexOf(sorted, a), IndexOf(sorted, b));
    AtomOrder(a, b);
    AtomOrder(b, a);
    AtomLeTotal(a, b);
    assert i < j ==> KeyLe(ByAtom(sorted[i]), ByAtom(sorted[j]));
    assert j < i ==> KeyLe(ByAtom(sorted[j]), ByAtom(sorted[i]));
  }

  lemma KeysOfRankable(q: Question, spec: PortSpec, es: seq<Entry>)
    requires Rankable(q, spec, es)
    ensures Collect(es, Positioner(q, spec, spec.ordering.value)) == Map(es, PositionAtom(q, spec))
    ensures Distinct(Map(es, PositionAtom(q, spec)))
    ensures forall e :: e in es ==> Position(q, spec)(e) == [PositionAtom(q, spec)(e)]
  {
    var f := Positioner(q, spec, spec.ordering.value);
    CollectAll(es, f);
    assert forall e :: f(e) == PositionKey(q, spec, spec.ordering.value, e);
    RepeatsDistinct(Collect(es, f));
    forall i | 0 <= i < |es| ensures Collect(es, f)[i] == PositionAtom(q, spec)(es[i]) {
      assert f(es[i]) == Some(Collect(es, f)[i]);
      assert es[i] in es && Position(q, spec)(es[i]) == [f(es[i]).value];
    }
  }

  /** A settled set port ranks each entry by its key's place among all the keys. */
  lemma SettledRanks(q: Question, spec: PortSpec, es: seq<Entry>)
    requires spec.cardinality.Many? && es != [] && Settle(q, spec, es).Success?
    ensures Rankable(q, spec, es)
    ensures Settle(q, spec, es).value == Map(es, Ranker(q, spec, Sort(Map(es, PositionAtom(q, spec)), ByAtom)))
  {
    SettledIff(q, spec, es);
    KeysOfRankable(q, spec, es);
  }

  /** The distinct sorted keys of a rankable port. */
  lemma SortedAtoms(q: Question, spec: PortSpec, es: seq<Entry>)
    requires Rankable(q, spec, es)
    ensures var sorted := Sort(Map(es, PositionAtom(q, spec)), ByAtom);
      Sorted(sorted, ByAtom) && Distinct(sorted) && forall e :: e in es ==> PositionAtom(q, spec)(e) in sorted
  {
    var atoms := Map(es, PositionAtom(q, spec));
    var sorted := Sort(atoms, ByAtom);
    KeysOfRankable(q, spec, es);
    SortSorted(atoms, ByAtom);
    SortElements(atoms, ByAtom);
    SameMembers(atoms, sorted);
    RepeatsDistinct(atoms);
    RepeatsReorder(atoms, sorted);
    RepeatsDistinct(sorted);
    forall e | e in es ensures PositionAtom(q, spec)(e) in sorted {
      var i :| 0 <= i < |es| && es[i] == e;
      assert atoms[i] in atoms;
    }
  }

  lemma SamePositionSameEntry(q: Question, spec: PortSpec, es: seq<Entry>, x: Entry, y: Entry)
    requires Rankable(q, spec, es) && x in es && y in es
    requires PositionAtom(q, spec)(x) == PositionAtom(q, spec)(y)
    ensures x == y
  {
    KeysOfRankable(q, spec, es);
    var atoms := Map(es, PositionAtom(q, spec));
    var i :| 0 <= i < |es| && es[i] == x;
    var j :| 0 <= j < |es| && es[j] == y;
    assert atoms[i] == atoms[j];
  }

  lemma RankKeepsOrder(q: Question, spec: PortSpec, es: seq<Entry>, x: Entry, y: Entry)
    requires Rankable(q, spec, es) && x in es && y in es && x.requirement.inputPort == y.requirement.inputPort
    ensures var ranker := Ranker(q, spec, Sort(Map(es, PositionAtom(q, spec)), ByAtom));
      KeyLe(Position(q, spec)(x), Position(q, spec)(y)) <==> KeyLe(ByPlace(ranker(x)), ByPlace(ranker(y)))
  {
    var sorted := Sort(Map(es, PositionAtom(q, spec)), ByAtom);
    var ranker := Ranker(q, spec, sorted);
    var (a, b) := (PositionAtom(q, spec)(x), PositionAtom(q, spec)(y));
    SortedAtoms(q, spec, es);
    KeysOfRankable(q, spec, es);
    RankOrder(sorted, a, b);
    RankOrder(sorted, b, a);
    AtomOrder(a, b);
    PlaceOrder(ranker(x), ranker(y));
    if IndexOf(sorted, a) == IndexOf(sorted, b) {
      SamePositionSameEntry(q, spec, es, x, y);
      TextLeTotal(ranker(x).bindingId, ranker(x).bindingId);
    }
  }

  lemma RanksKeepOrder(q: Question, spec: PortSpec, es: seq<Entry>, port: string)
    requires Rankable(q, spec, es)
    requires forall e :: e in es ==> e.requirement.inputPort == port
    ensures OrderKept(es, Ranker(q, spec, Sort(Map(es, PositionAtom(q, spec)), ByAtom)), Position(q, spec), ByPlace)
    ensures OrderKept(es, PositionAtom(q, spec), Position(q, spec), ByAtom)
  {
    var ranker := Ranker(q, spec, Sort(Map(es, PositionAtom(q, spec)), ByAtom));
    KeysOfRankable(q, spec, es);
    forall x, y | x in es && y in es
      ensures KeyLe(Position(q, spec)(x), Position(q, spec)(y)) <==> KeyLe(ByPlace(ranker(x)), ByPlace(ranker(y)))
    {
      RankKeepsOrder(q, spec, es, x, y);
    }
  }

  lemma PlaceOrder(a: Binding, b: Binding)
    requires a.inputPort == b.inputPort
    ensures KeyLe(ByPlace(a), ByPlace(b)) <==>
              a.portOrdinal < b.portOrdinal || (a.portOrdinal == b.portOrdinal && TextLe(a.bindingId, b.bindingId))
  {
    var (x, y) := (ByPlace(a), ByPlace(b));
    assert x[1..][0] == Num(a.portOrdinal) && y[1..][0] == Num(b.portOrdinal);
    assert x[1..][1..] == [Text(a.bindingId)] && y[1..][1..] == [Text(b.bindingId)];
    AtomOrder(Text(a.bindingId), Text(b.bindingId));
  }

  lemma {:induction false} PlaceInSorted(sorted: seq<Atom>, k: nat)
    requires Distinct(sorted) && k < |sorted|
    ensures IndexOf(sorted, sorted[k]) == k
  {
    assert IndexOf(sorted, sorted[k]) < |sorted|;
  }

  /** The sorted entries, next to the sorted keys. */
  lemma ListedByPosition(q: Question, spec: PortSpec, es: seq<Entry>, port: string)
    requires Rankable(q, spec, es)
    requires forall e :: e in es ==> e.requirement.inputPort == port
    ensures var listed := Sort(es, Position(q, spec));
      && Map(listed, PositionAtom(q, spec)) == Sort(Map(es, PositionAtom(q, spec)), ByAtom)
      && SameElements(listed, es)
      && StrictlySorted(listed, Position(q, spec))
  {
    var listed := Sort(es, Position(q, spec));
    RanksKeepOrder(q, spec, es, port);
    SortMap(es, PositionAtom(q, spec), Position(q, spec), ByAtom);
    SortElements(es, Position(q, spec));
    SortSorted(es, Position(q, spec));
    SortedAtoms(q, spec, es);
    KeysOfRankable(q, spec, es);
    SameMembers(listed, es);
    var atoms := Map(listed, PositionAtom(q, spec));
    forall i, j | 0 <= i < j < |listed| ensures KeyLt(Position(q, spec)(listed[i]), Position(q, spec)(listed[j])) {
      assert atoms[i] != atoms[j];
      assert listed[i] in es && listed[j] in es;
    }
  }

  function Numbered(q: Question, listed: seq<Entry>): (bs: seq<Binding>)
    ensures |bs| == |listed|
    ensures forall k :: 0 <= k < |listed| ==> bs[k] == MakeBinding(q, listed[k], k)
  {
    seq(|listed|, k requires 0 <= k < |listed| => MakeBinding(q, listed[k], k))
  }

  /** The bindings of a settled set port, listed by rank: the k-th carries ordinal k and keys rise
      strictly, so the ordinals are a bijection onto 0..n-1 that follows the declared order. */
  lemma RankedInOrder(q: Question, spec: PortSpec, es: seq<Entry>, port: string)
    requires spec.cardinality.Many? && es != [] && Settle(q, spec, es).Success?
    requires forall e :: e in es ==> e.requirement.inputPort == port
    ensures var listed := Sort(es, Position(q, spec));
      && SameElements(listed, es)
      && StrictlySorted(listed, Position(q, spec))
      && Sort(Settle(q, spec, es).value, ByPlace) == Numbered(q, listed)
  {
    SettledRanks(q, spec, es);
    RanksKeepOrder(q, spec, es, port);
    ListedByPosition(q, spec, es, port);
    SortedAtoms(q, spec, es);
    var listed := Sort(es, Position(q, spec));
    var sorted := Sort(Map(es, PositionAtom(q, spec)), ByAtom);
    SortMap(es, Ranker(q, spec, sorted), Position(q, spec), ByPlace);
    forall k | 0 <= k < |listed| ensures Ranker(q, spec, sorted)(listed[k]) == MakeBinding(q, listed[k], k) {
      assert sorted[k] == PositionAtom(q, spec)(listed[k]);
      PlaceInSorted(sorted, k);
    }
  }

  // ------------------------------------------------------------------ the finished manifest

  /** For any bindings that stand on the port they are listed under. */
  lemma {:induction false} OnlyListed(ports: seq<string>, port: string, at: string -> seq<Binding>)
    requires Distinct(ports)
    requires forall p, b :: p in ports && b in at(p) ==> b.inputPort == p
    ensures Filter(FlatMap(ports, at), OnPort(port)) == if port in ports then at(port) else []
  {
    if ports != [] {
      var first := at(ports[0]);
      OnlyListed(ports[1..], port, at);
      FilterConcat(first, FlatMap(ports[1..], at), OnPort(port));
      assert ports[0] !in ports[1..];
      if ports[0] == port {
        FilterAll(first, OnPort(port));
      } else {
        FilterNone(first, OnPort(port));
      }
    }
  }

  lemma OnlyPort(q: Question, fs: seq<Finding>, ports: seq<string>, port: string)
    requires WellFound(q, fs) && Distinct(ports)
    requires forall p :: p in ports ==> p in UsedPorts(fs) && PortOutcome(q, fs, p).Success?
    ensures Filter(FlatMap(ports, BindingsFor(q, fs)), OnPort(port))
         == if port in ports then BindingsFor(q, fs)(port) else []
  {
    forall p, b | p in ports && b in BindingsFor(q, fs)(p) ensures b.inputPort == p {
      PortBindings(q, fs, p);
    }
    OnlyListed(ports, port, BindingsFor(q, fs));
  }

  /** What a returned manifest says about the findings behind it. */
  lemma ManifestFindings(q: Question, rs: seq<DataRequirement>, accepted: AcceptedIndex)
    requires HasManifest(Resolve(q, rs, accepted))
    ensures var fs := FindingsOf(q, rs, accepted);
      && WellFound(q, fs) && NoRefusal(fs) && PortsSucceed(q, fs) && RequiredPortsUsed(q, fs)
      && Resolve(q, rs, accepted).manifest.value.bindings == Sort(AllBindings(q, fs), ByPlace)
      && Resolve(q, rs, accepted).manifest.value.pending == Sort(PendingOf(fs), ByPending)
  {
    FindingsOfExact(q, rs, accepted);
    BlockingIff(q, FindingsOf(q, rs, accepted));
  }

  lemma ForPortSorted(q: Question, rs: seq<DataRequirement>, accepted: AcceptedIndex, port: string)
    requires HasManifest(Resolve(q, rs, accepted))
    ensures var fs := FindingsOf(q, rs, accepted);
      ForPort(Resolve(q, rs, accepted).manifest.value, port)
        == if port in UsedPorts(fs) then Sort(BindingsFor(q, fs)(port), ByPlace) else []
  {
    var fs := FindingsOf(q, rs, accepted);
    ManifestFindings(q, rs, accepted);
    SortedSetDistinct(Collect(fs, PortIn));
    OnlyPort(q, fs, UsedPorts(fs), port);
    SortFilter(AllBindings(q, fs), ByPlace, OnPort(port));
  }

  /** Sorting arrangements of strictly ranked entries gives one sequence. */
  lemma ListedCanonical(q: Question, spec: PortSpec, es: seq<Entry>, pairs: seq<Entry>)
    requires SameElements(es, pairs) && StrictlySorted(Sort(es, Position(q, spec)), Position(q, spec))
    ensures Sort(es, Position(q, spec)) == Sort(pairs, Position(q, spec))
  {
    var listed := Sort(es, Position(q, spec));
    SortElements(es, Position(q, spec));
    StrictlySortedDistinct(listed, Position(q, spec));
    DistinctKeysReorder(listed, es, Position(q, spec));
    DistinctKeysReorder(listed, pairs, Position(q, spec));
    SortCanonical(es, pairs, Position(q, spec));
  }

  /** The declared order. On every declared port the manifest lists exactly the pairs that feed it,
      sorted by the port's declared key, with ordinals 0, 1, 2 and so on. */
  lemma ForPortExact(q: Question, rs: seq<DataRequirement>, accepted: AcceptedIndex, port: string)
    requires HasManifest(Resolve(q, rs, accepted)) && PortOf(q.consumer.inputPorts, port).Some?
    ensures var spec := PortOf(q.consumer.inputPorts, port).value;
      var listed := Sort(PairsAt(q, rs, accepted, port), Position(q, spec));
      && ForPort(Resolve(q, rs, accepted).manifest.value, port) == Numbered(q, listed)
      && StrictlySorted(listed, Position(q, spec))
      && (spec.cardinality.Single? ==> |listed| <= 1)
  {
    var spec := PortOf(q.consumer.inputPorts, port).value;
    var fs := FindingsOf(q, rs, accepted);
    ManifestFindings(q, rs, accepted);
    ForPortSorted(q, rs, accepted, port);
    EntriesAtPairs(q, rs, accepted, port);
    if port in UsedPorts(fs) {
      var (es, pairs) := (EntriesAt(fs, port), PairsAt(q, rs, accepted, port));
      UsedPortIff(fs, port);
      forall e | e in es ensures e.requirement.inputPort == port {
        EntryOrigin(fs, port, e);
      }
      SameMembers(es, pairs);
      if spec.cardinality.Many? {
        RankedInOrder(q, spec, es, port);
        ListedCanonical(q, spec, es, pairs);
      } else {
        SettledIff(q, spec, es);
        SingleListed(q, spec, es, pairs);
      }
    }
  }

  lemma SingleSettles(q: Question, spec: PortSpec, e: Entry)
    requires spec.cardinality.Single?
    ensures Settle(q, spec, [e]) == Success([MakeBinding(q, e, 0)])
  {
    var bs := Bind(q, [e], Zeros(|[e]|));
    assert [e][0] == e && bs == [MakeBinding(q, e, 0)];
  }

  lemma SingleListed(q: Question, spec: PortSpec, es: seq<Entry>, pairs: seq<Entry>)
    requires spec.cardinality.Single? && |es| == 1 && SameElements(es, pairs)
    ensures Settle(q, spec, es).Success?
    ensures Sort(Settle(q, spec, es).value, ByPlace) == Numbered(q, Sort(pairs, Position(q, spec)))
    ensures |pairs| == 1
  {
    var e := es[0];
    SameMembers(es, pairs);
    assert pairs[0] in es;
    assert es == [e] && pairs == [e];
    SingleSettles(q, spec, e);
    SortOne(MakeBinding(q, e, 0), ByPlace);
    SortOne(e, Position(q, spec));
  }

  // -------------------------------------------------------------------------------- readiness

  /** `InputManifest.required_ports_satisfied`: a provisional binding does not satisfy a port. */
  predicate RequiredPortsSatisfied(m: Manifest, consumer: Consumer) {
    forall spec :: spec in consumer.inputPorts && spec.required ==>
      exists b :: b in ForPort(m, spec.portKey) && !b.provisional
  }

  lemma WaitingListed(fs: seq<Finding>, f: Finding)
    requires f in fs && f.Waiting?
    ensures f.symbolic in PendingOf(fs)
  {
    CollectMember(fs, PendingIn, f.symbolic);
    assert PendingIn(f) == Some(f.symbolic);
  }

  lemma NoProblemsIff(q: Question, fs: seq<Finding>)
    requires WellFound(q, fs) && NoRefusal(fs) && PortsSucceed(q, fs) && RequiredPortsUsed(q, fs)
    ensures AllProblems(q, fs) == [] <==> PendingOf(fs) == []
  {
    if PendingOf(fs) != [] {
      var s := PendingOf(fs)[0];
      CollectMember(fs, PendingIn, s);
      var f :| f in fs && PendingIn(f) == Some(s);
      CollectMember(fs, ProblemIn, f.problem);
      assert ProblemIn(f) == Some(f.problem) && f.problem in AllProblems(q, fs);
    } else {
      NoPortRefusals(q, fs);
      UnboundIff(q, fs);
      if ProblemsOf(fs) != [] {
        var p := ProblemsOf(fs)[0];
        CollectMember(fs, ProblemIn, p);
        var f :| f in fs && ProblemIn(f) == Some(p);
        WaitingListed(fs, f);
      }
      if AllProblems(q, fs) != [] {
        assert AllProblems(q, fs)[0] in AllProblems(q, fs);
        OnlyUnboundLeft(q, fs);
      }
    }
  }

  lemma OnlyUnboundLeft(q: Question, fs: seq<Finding>)
    requires ProblemsOf(fs) == [] && PortRefusals(q, fs) == [] && AllProblems(q, fs) != []
    ensures exists p :: p in AllProblems(q, fs) && p.kind != PendingProducer
  {
    var problems := ProblemsOf(fs) + PortRefusals(q, fs);
    var complaint :=
      UnboundPort(q, BoundPorts(AllBindings(q, fs)), PendingPorts(PendingOf(fs)), FailedPorts(problems));
    var p := AllProblems(q, fs)[0];
    CollectMember(q.consumer.inputPorts, complaint, p);
    assert p in AllProblems(q, fs);
  }

  /** Readiness. A returned manifest has every required port bound or pending; there is nothing to
      report exactly when the manifest is frozen; and a frozen manifest without provisional bindings
      satisfies every required port. */
  lemma Readiness(q: Question, rs: seq<DataRequirement>, accepted: AcceptedIndex)
    ensures var res := Resolve(q, rs, accepted);
      && (res.Answer? && res.problems == [] <==> HasManifest(res) && res.manifest.value.IsFrozen())
      && (HasManifest(res) ==>
            var m := res.manifest.value;
            && (forall spec :: spec in q.consumer.inputPorts && spec.required ==>
                  ForPort(m, spec.portKey) != [] || spec.portKey in PendingPorts(m.pending))
            && (m.IsFrozen() && (forall b :: b in m.bindings ==> !b.provisional) ==>
                  RequiredPortsSatisfied(m, q.consumer)))
  {
    var res := Resolve(q, rs, accepted);
    var fs := FindingsOf(q, rs, accepted);
    FindingsOfExact(q, rs, accepted);
    BlockingIff(q, fs);
    SortMembers(AllProblems(q, fs), BySeverity);
    if HasManifest(res) {
      NoProblemsIff(q, fs);
      SortMembers(PendingOf(fs), ByPending);
      ManifestReady(q, rs, accepted);
    } else if res.Answer? {
      assert res.problems != [];
    }
  }

  lemma ManifestReady(q: Question, rs: seq<DataRequirement>, accepted: AcceptedIndex)
    requires HasManifest(Resolve(q, rs, accepted))
    ensures var m := Resolve(q, rs, accepted).manifest.value;
      && (forall spec :: spec in q.consumer.inputPorts && spec.required ==>
            ForPort(m, spec.portKey) != [] || spec.portKey in PendingPorts(m.pending))
      && (m.IsFrozen() && (forall b :: b in m.bindings ==> !b.provisional) ==> RequiredPortsSatisfied(m, q.consumer))
  {
    var m := Resolve(q, rs, accepted).manifest.value;
    var fs := FindingsOf(q, rs, accepted);
    ManifestFindings(q, rs, accepted);
    SortMembers(PendingOf(fs), ByPending);
    assert PendingPorts(m.pending) == PendingPorts(PendingOf(fs));
    forall spec | spec in q.consumer.inputPorts && spec.required
      ensures ForPort(m, spec.portKey) != [] || spec.portKey in PendingPorts(m.pending)
    {
      ForPortSorted(q, rs, accepted, spec.portKey);
      if spec.portKey in UsedPorts(fs) {
        PortBindings(q, fs, spec.portKey);
      }
    }
    if m.IsFrozen() && forall b :: b in m.bindings ==> !b.provisional {
      forall spec | spec in q.consumer.inputPorts && spec.required
        ensures exists b :: b in ForPort(m, spec.portKey) && !b.provisional
      {
        var b := ForPort(m, spec.portKey)[0];
        FilterMember(m.bindings, OnPort(spec.portKey), b);
        assert b in ForPort(m, spec.portKey);
      }
    }
  }
}
