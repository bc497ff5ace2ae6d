/** Resolution does not depend on the order in which requirements and outputs arrive. */
module ResolverPermutation {
  import opened InputModel
  import opened Ordering
  import opened Sequences
  import opened Resolution
  import opened ResolutionFacts
  import opened ResolverExactness
  import opened ResolverOrdering

  // -------------------------------------------------------- exchanging indistinguishable items

  /** `t` is `s` with some neighbouring twins exchanged. */
  ghost predicate Twisted<T>(s: seq<T>, t: seq<T>, twins: (T, T) -> bool)
    decreases |s|
  {
    if s == [] || t == [] then s == t
    else
      || (s[0] == t[0] && Twisted(s[1..], t[1..], twins))
      || (|s| >= 2 && |t| >= 2 && s[0] == t[1] && s[1] == t[0] && twins(s[0], s[1]) && Twisted(s[2..], t[2..], twins))
  }

  lemma {:induction false} TwistedSelf<T>(s: seq<T>, twins: (T, T) -> bool)
    ensures Twisted(s, s, twins)
  {
    if s != [] {
      TwistedSelf(s[1..], twins);
    }
  }

  lemma {:induction false} TwistedConcat<T>(a: seq<T>, b: seq<T>, c: seq<T>, d: seq<T>, twins: (T, T) -> bool)
    requires Twisted(a, b, twins) && Twisted(c, d, twins)
    ensures Twisted(a + c, b + d, twins)
    decreases |a|
  {
    if a == [] || b == [] {
      assert a + c == c && b + d == d;
    } else if a[0] == b[0] && Twisted(a[1..], b[1..], twins) {
      TwistedConcat(a[1..], b[1..], c, d, twins);
      assert (a + c)[1..] == a[1..] + c && (b + d)[1..] == b[1..] + d;
    } else {
      TwistedConcat(a[2..], b[2..], c, d, twins);
      assert (a + c)[2..] == a[2..] + c && (b + d)[2..] == b[2..] + d;
    }
  }

  lemma {:induction false} TwistedElements<T>(s: seq<T>, t: seq<T>, twins: (T, T) -> bool)
    requires Twisted(s, t, twins)
    ensures SameElements(s, t)
    decreases |s|
  {
    if s != [] && t != [] {
      if s[0] == t[0] && Twisted(s[1..], t[1..], twins) {
        TwistedElements(s[1..], t[1..], twins);
        assert s == [s[0]] + s[1..] && t == [t[0]] + t[1..];
      } else {
        TwistedElements(s[2..], t[2..], twins);
        assert s == [s[0], s[1]] + s[2..] && t == [t[0], t[1]] + t[2..];
      }
    }
  }

  // ------------------------------------------------------------------ sorting exchanged outputs

  function SameRevision(c: AcceptedOutput, c': AcceptedOutput): bool { ByRevision(c) == ByRevision(c') }

  lemma InsertPastTwo(x: AcceptedOutput, s: seq<AcceptedOutput>)
    requires |s| >= 2 && !KeyLe(ByRevision(x), ByRevision(s[0])) && !KeyLe(ByRevision(x), ByRevision(s[1]))
    ensures Insert(x, s, ByRevision) == [s[0], s[1]] + Insert(x, s[2..], ByRevision)
    ensures Insert(x, s, ByRevision)[2..] == Insert(x, s[2..], ByRevision)
  {
    assert s[1..][1..] == s[2..];
  }

  lemma TwistedHeads(s: seq<AcceptedOutput>, t: seq<AcceptedOutput>)
    requires Twisted(s, t, SameRevision) && s != []
    ensures t != [] && ByRevision(s[0]) == ByRevision(t[0])
  {
  }

  lemma {:induction false} InsertTwisted(x: AcceptedOutput, s: seq<AcceptedOutput>, t: seq<AcceptedOutput>)
    requires Twisted(s, t, SameRevision)
    ensures Twisted(Insert(x, s, ByRevision), Insert(x, t, ByRevision), SameRevision)
    decreases |s|
  {
    var (u, v) := (Insert(x, s, ByRevision), Insert(x, t, ByRevision));
    if s == [] {
      TwistedSelf(u, SameRevision);
      return;
    }
    TwistedHeads(s, t);
    if KeyLe(ByRevision(x), ByRevision(s[0])) {
      assert u[1..] == s && v[1..] == t;
    } else if s[0] == t[0] && Twisted(s[1..], t[1..], SameRevision) {
      InsertTwisted(x, s[1..], t[1..]);
      assert u[1..] == Insert(x, s[1..], ByRevision) && v[1..] == Insert(x, t[1..], ByRevision);
    } else {
      assert ByRevision(s[0]) == ByRevision(s[1]);
      InsertTwisted(x, s[2..], t[2..]);
      InsertPastTwo(x, s);
      InsertPastTwo(x, t);
    }
  }

  lemma {:induction false} InsertTwins(x: AcceptedOutput, y: AcceptedOutput, s: seq<AcceptedOutput>)
    requires Sorted(s, ByRevision)
    ensures Twisted(Insert(x, Insert(y, s, ByRevision), ByRevision), Insert(y, Insert(x, s, ByRevision), ByRevision),
                    SameRevision)
  {
    var (u, v) := (Insert(y, s, ByRevision), Insert(x, s, ByRevision));
    var (a, b) := (ByRevision(x), ByRevision(y));
    KeyLeTotal(a, b);
    if s == [] {
      TwoInserted(x, y, s);
    } else {
      var k := ByRevision(s[0]);
      if KeyLe(a, k) && KeyLe(b, k) {
        TwoInserted(x, y, s);
      } else if !KeyLe(a, k) && !KeyLe(b, k) {
        InsertTwins(x, y, s[1..]);
        assert u[1..] == Insert(y, s[1..], ByRevision) && v[1..] == Insert(x, s[1..], ByRevision);
        var (p, r) := (Insert(x, u, ByRevision), Insert(y, v, ByRevision));
        assert p[1..] == Insert(x, u[1..], ByRevision) && r[1..] == Insert(y, v[1..], ByRevision);
      } else if KeyLe(a, k) {
        KeyLeTotal(b, k);
        if KeyLe(b, a) { KeyLeTransitive(b, a, k); }
        assert Insert(x, u, ByRevision) == [x] + u;
        assert v == [x] + s && v[1..] == s;
        assert Insert(y, v, ByRevision) == [x] + u;
        TwistedSelf([x] + u, SameRevision);
      } else {
        KeyLeTotal(a, k);
        if KeyLe(a, b) { KeyLeTransitive(a, b, k); }
        assert Insert(y, v, ByRevision) == [y] + v;
        assert u == [y] + s && u[1..] == s;
        assert Insert(x, u, ByRevision) == [y] + v;
        TwistedSelf([y] + v, SameRevision);
      }
    }
  }

  lemma TwoInserted(x: AcceptedOutput, y: AcceptedOutput, s: seq<AcceptedOutput>)
    requires s == [] || (KeyLe(ByRevision(x), ByRevision(s[0])) && KeyLe(ByRevision(y), ByRevision(s[0])))
    ensures Twisted(Insert(x, Insert(y, s, ByRevision), ByRevision), Insert(y, Insert(x, s, ByRevision), ByRevision),
                    SameRevision)
  {
    var (p, r) := (Insert(x, [y] + s, ByRevision), Insert(y, [x] + s, ByRevision));
    assert Insert(y, s, ByRevision) == [y] + s && Insert(x, s, ByRevision) == [x] + s;
    assert ([y] + s)[1..] == s && ([x] + s)[1..] == s;
    KeyLeTotal(ByRevision(x), ByRevision(y));
    TwistedSelf(s, SameRevision);
    TwistedSelf(p, SameRevision);
    if ByRevision(x) == ByRevision(y) {
      assert p == [x, y] + s && r == [y, x] + s;
      assert p[2..] == s && r[2..] == s;
    } else {
      assert p == r;
    }
  }

  /** Exchanging two neighbouring arrivals exchanges, at most, two outputs that tie. */
  lemma {:induction false} SortExchanged(head: seq<AcceptedOutput>, x: AcceptedOutput, y: AcceptedOutput,
                                         tail: seq<AcceptedOutput>)
    ensures Twisted(Sort(head + [x, y] + tail, ByRevision), Sort(head + [y, x] + tail, ByRevision), SameRevision)
  {
    var (s, t) := (head + [x, y] + tail, head + [y, x] + tail);
    if head == [] {
      assert s == [x] + ([y] + tail) && t == [y] + ([x] + tail);
      assert s[1..] == [y] + tail && t[1..] == [x] + tail;
      assert s[1..][1..] == tail && t[1..][1..] == tail;
      SortSorted(tail, ByRevision);
      InsertTwins(x, y, Sort(tail, ByRevision));
    } else {
      assert s[1..] == head[1..] + [x, y] + tail && t[1..] == head[1..] + [y, x] + tail;
      SortExchanged(head[1..], x, y, tail);
      InsertTwisted(head[0], Sort(s[1..], ByRevision), Sort(t[1..], ByRevision));
    }
  }

  // -------------------------------------------------------------------------- twin findings

  /** Findings that no later step tells apart by their order. */
  function Twins(f: Finding, g: Finding): bool {
    match (f, g)
    case (Licensed(e), Licensed(e')) => e.requirement == e'.requirement
    case (Refused(p), Refused(p')) => p.kind == p'.kind ==> p' == p.(detail := p'.detail)
    case (Waiting(_, _), _) => false
    case (_, Waiting(_, _)) => false
    case _ => true
  }

  lemma WeighTwins(q: Question, r: DataRequirement, spec: PortSpec, c: AcceptedOutput, c': AcceptedOutput)
    requires SameRevision(c, c')
    ensures Twins(Weigh(q, r, spec, c), Weigh(q, r, spec, c'))
  {
    assert c.artifactId == c'.artifactId by {
      assert ByRevision(c)[1] == ByRevision(c')[1];
    }
    WeighRefusal(q, r, spec, c);
    WeighRefusal(q, r, spec, c');
  }

  /** Apart from its message, a refusal of a candidate says only which artifact and requirement. */
  lemma WeighRefusal(q: Question, r: DataRequirement, spec: PortSpec, c: AcceptedOutput)
    ensures var f := Weigh(q, r, spec, c);
      && !f.Waiting?
      && (f.Licensed? ==> f.entry.requirement == r)
      && (f.Refused? ==>
            f.problem == Problem(f.problem.kind, f.problem.detail, Some(r.inputPort), [r.requirementId],
                                 if f.problem.kind.SchemaMismatch? && r.schemaRef != spec.schemaRef then []
                                 else [c.artifactId],
                                 [r.inputPort]))
  {
    var (schema, license) := (CheckSchema(q, r, spec, c), CheckWitness(q, r, c));
    assert schema.Failure? ==> schema.error.kind.SchemaMismatch?;
    if license.Failure? {
      assert !license.error.kind.SchemaMismatch? && license.error.candidates == [c.artifactId];
    }
  }

  lemma {:induction false} WeighedTwisted(q: Question, r: DataRequirement, spec: PortSpec,
                                          cs: seq<AcceptedOutput>, cs': seq<AcceptedOutput>)
    requires Twisted(cs, cs', SameRevision)
    ensures Twisted(Map(cs, Weigher(q, r, spec)), Map(cs', Weigher(q, r, spec)), Twins)
    decreases |cs|
  {
    var w := Weigher(q, r, spec);
    var (fs, gs) := (Map(cs, w), Map(cs', w));
    if cs != [] && cs' != [] {
      if cs[0] == cs'[0] && Twisted(cs[1..], cs'[1..], SameRevision) {
        WeighedTwisted(q, r, spec, cs[1..], cs'[1..]);
        assert fs[1..] == Map(cs[1..], w) && gs[1..] == Map(cs'[1..], w);
      } else {
        WeighedTwisted(q, r, spec, cs[2..], cs'[2..]);
        WeighTwins(q, r, spec, cs[0], cs[1]);
        assert fs[2..] == Map(cs[2..], w) && gs[2..] == Map(cs'[2..], w);
      }
    }
  }

  ghost predicate Exchanged(accepted: AcceptedIndex, accepted': AcceptedIndex, head: seq<AcceptedOutput>,
                            x: AcceptedOutput, y: AcceptedOutput, tail: seq<AcceptedOutput>)
  {
    accepted.outputs == head + [x, y] + tail && accepted' == accepted.(outputs := head + [y, x] + tail)
  }

  lemma OffersExchanged(q: Question, accepted: AcceptedIndex, accepted': AcceptedIndex, head: seq<AcceptedOutput>,
                        x: AcceptedOutput, y: AcceptedOutput, tail: seq<AcceptedOutput>, r: DataRequirement)
    requires Exchanged(accepted, accepted', head, x, y, tail)
    ensures Twisted(Sort(Offers(q, accepted, r), ByRevision), Sort(Offers(q, accepted', r), ByRevision), SameRevision)
  {
    var (p, p') := (OfferedTo(q, accepted, r), OfferedTo(q, accepted', r));
    FilterAgrees(accepted'.outputs, p, p');
    FilterAround(head, x, y, tail, p);
    FilterAround(head, y, x, tail, p);
    if p(x) && p(y) {
      SortExchanged(Filter(head, p), x, y, Filter(tail, p));
    } else {
      TwistedSelf(Sort(Offers(q, accepted, r), ByRevision), SameRevision);
    }
  }

  lemma FilterAround<T>(head: seq<T>, x: T, y: T, tail: seq<T>, p: T -> bool)
    ensures Filter(head + [x, y] + tail, p) == Filter(head, p)
              + (if p(x) && p(y) then [x, y] else if p(x) then [x] else if p(y) then [y] else []) + Filter(tail, p)
  {
    FilterConcat(head + [x, y], tail, p);
    FilterConcat(head, [x, y], p);
    FilterPair(x, y, p);
  }

  lemma FilterPair<T>(x: T, y: T, p: T -> bool)
    ensures Filter([x, y], p) == (if p(x) then [x] else []) + (if p(y) then [y] else [])
  {
    assert [x, y][1..] == [y] && [y][1..] == [];
  }

  lemma ExamineExchanged(q: Question, accepted: AcceptedIndex, accepted': AcceptedIndex, head: seq<AcceptedOutput>,
                         x: AcceptedOutput, y: AcceptedOutput, tail: seq<AcceptedOutput>, r: DataRequirement)
    requires Exchanged(accepted, accepted', head, x, y, tail)
    ensures Twisted(Examine(q, accepted, r), Examine(q, accepted', r), Twins)
  {
    OffersExchanged(q, accepted, accepted', head, x, y, tail, r);
    SelectedAreOffers(q, accepted, r);
    SelectedAreOffers(q, accepted', r);
    var (cs, cs') := (Sort(Offers(q, accepted, r), ByRevision), Sort(Offers(q, accepted', r), ByRevision));
    TwistedElements(cs, cs', SameRevision);
    SameMembers(cs, cs');
    if Ready(q, accepted, r) && SelectByRevision(q, accepted, r).Success? {
      WeighedTwisted(q, r, PortOf(q.consumer.inputPorts, r.inputPort).value, cs, cs');
    } else {
      assert Examine(q, accepted, r) == Examine(q, accepted', r);
      TwistedSelf(Examine(q, accepted, r), Twins);
    }
  }

  lemma {:induction false} ExamineAllExchanged(
      q: Question, accepted: AcceptedIndex, accepted': AcceptedIndex, head: seq<AcceptedOutput>,
      x: AcceptedOutput, y: AcceptedOutput, tail: seq<AcceptedOutput>, rs: seq<DataRequirement>)
    requires Exchanged(accepted, accepted', head, x, y, tail)
    ensures Twisted(ExamineAll(q, accepted, rs), ExamineAll(q, accepted', rs), Twins)
  {
    if rs != [] {
      ExamineExchanged(q, accepted, accepted', head, x, y, tail, rs[0]);
      ExamineAllExchanged(q, accepted, accepted', head, x, y, tail, rs[1..]);
      TwistedConcat(Examine(q, accepted, rs[0]), Examine(q, accepted', rs[0]),
                    ExamineAll(q, accepted, rs[1..]), ExamineAll(q, accepted', rs[1..]), Twins);
    }
  }

  // ------------------------------------------------------------ the conclusion from twin findings

  /** Length, first and ninth character of a kind's wire value. */
  function Shape(kind: ProblemKind): (nat, char, char) {
    match kind
    case AmbiguousSinglePort => (21, 'a', 's')
    case SetPortUnordered => (18, 's', '_')
    case SetPortOrderIncomplete => (25, 's', '_')
    case UndeclaredPort => (15, 'u', 'e')
    case ForeignRequirement => (19, 'f', 'r')
    case UnboundRequiredPort => (21, 'u', 'r')
    case SchemaMismatch => (15, 's', 'i')
    case NotDisclosable => (15, 'n', 'l')
    case WitnessMissing => (15, 'w', 'm')
    case WitnessNotUsable => (18, 'w', 'n')
    case WitnessPurposeMismatch => (24, 'w', 'p')
    case WitnessConsumerMismatch => (25, 'w', 'c')
    case WitnessSupportMismatch => (24, 'w', 's')
    case WitnessEpochUnknown => (21, 'w', 'e')
    case PendingProducer => (16, 'p', 'p')
    case ProvisionalNotAuthorized => (26, 'p', 'n')
    case RevisionNotAvailable => (22, 'r', '_')
    case TargetPathConflict => (20, 't', 'a')
    case TargetPathInvalid => (19, 't', 'a')
  }

  lemma KindShape(kind: ProblemKind)
    ensures var t := KindText(kind);
      |t| > 8 && (|t|, t[0], t[8]) == Shape(kind)
  {
  }

  lemma KindTextInjective(a: ProblemKind, b: ProblemKind)
    requires KindText(a) == KindText(b)
    ensures a == b
  {
    KindShape(a);
    KindShape(b);
  }

  lemma TwinRefusals(p: Problem, p': Problem)
    requires p.kind == p'.kind ==> p' == p.(detail := p'.detail)
    requires BySeverity(p) == BySeverity(p')
    ensures p == p'
  {
    assert BySeverity(p)[0] == BySeverity(p')[0] && BySeverity(p)[2] == BySeverity(p')[2];
    KindTextInjective(p.kind, p'.kind);
  }

  lemma CollectTwo<T, U>(s: seq<T>, f: T -> Option<U>)
    requires |s| >= 2
    ensures Collect(s, f) == Collect([s[0]], f) + Collect([s[1]], f) + Collect(s[2..], f)
  {
    var (a, b, c) := ([s[0]], [s[1]], s[2..]);
    assert s == a + (b + c);
    CollectConcat(a, b + c, f);
    CollectConcat(b, c, f);
    Assoc(Collect(a, f), Collect(b, f), Collect(c, f));
  }

  lemma {:induction false} TwistedProblems(fs: seq<Finding>, gs: seq<Finding>, k: Key)
    requires Twisted(fs, gs, Twins)
    ensures OfKey(ProblemsOf(fs), BySeverity, k) == OfKey(ProblemsOf(gs), BySeverity, k)
    ensures PendingOf(fs) == PendingOf(gs)
    decreases |fs|
  {
    if fs != [] && gs != [] {
      if fs[0] == gs[0] && Twisted(fs[1..], gs[1..], Twins) {
        TwistedProblems(fs[1..], gs[1..], k);
        OfKeyConcat(Collect([fs[0]], ProblemIn), ProblemsOf(fs[1..]), BySeverity, k);
        OfKeyConcat(Collect([fs[0]], ProblemIn), ProblemsOf(gs[1..]), BySeverity, k);
        CollectConcat([fs[0]], fs[1..], ProblemIn);
        CollectConcat([fs[0]], gs[1..], ProblemIn);
        assert fs == [fs[0]] + fs[1..] && gs == [fs[0]] + gs[1..];
      } else {
        TwistedProblems(fs[2..], gs[2..], k);
        SwappedProblems(fs, gs, k);
        CollectTwo(fs, PendingIn);
        CollectTwo(gs, PendingIn);
      }
    }
  }

  lemma SwappedProblems(fs: seq<Finding>, gs: seq<Finding>, k: Key)
    requires |fs| >= 2 && |gs| >= 2 && fs[0] == gs[1] && fs[1] == gs[0] && Twins(fs[0], fs[1])
    requires OfKey(ProblemsOf(fs[2..]), BySeverity, k) == OfKey(ProblemsOf(gs[2..]), BySeverity, k)
    ensures OfKey(ProblemsOf(fs), BySeverity, k) == OfKey(ProblemsOf(gs), BySeverity, k)
  {
    var (a, b) := (Collect([fs[0]], ProblemIn), Collect([fs[1]], ProblemIn));
    CollectTwo(fs, ProblemIn);
    CollectTwo(gs, ProblemIn);
    OfKeyConcat(a + b, ProblemsOf(fs[2..]), BySeverity, k);
    OfKeyConcat(b + a, ProblemsOf(gs[2..]), BySeverity, k);
    OfKeyConcat(a, b, BySeverity, k);
    OfKeyConcat(b, a, BySeverity, k);
    if fs[0].Refused? && fs[1].Refused? && BySeverity(fs[0].problem) == BySeverity(fs[1].problem) {
      TwinRefusals(fs[0].problem, fs[1].problem);
    }
  }

  /** Twins that contribute the same in either order make no difference. */
  lemma {:induction false} TwistedFlat<T, U>(s: seq<T>, t: seq<T>, twins: (T, T) -> bool, f: T -> seq<U>)
    requires Twisted(s, t, twins) && forall x, y :: twins(x, y) ==> f(x) + f(y) == f(y) + f(x)
    ensures FlatMap(s, f) == FlatMap(t, f)
    decreases |s|
  {
    if s != [] && t != [] {
      if s[0] == t[0] && Twisted(s[1..], t[1..], twins) {
        TwistedFlat(s[1..], t[1..], twins, f);
      } else {
        TwistedFlat(s[2..], t[2..], twins, f);
        FlatMapTwo(s, f);
        FlatMapTwo(t, f);
      }
    }
  }

  lemma FlatMapTwo<T, U>(s: seq<T>, f: T -> seq<U>)
    requires |s| >= 2
    ensures FlatMap(s, f) == f(s[0]) + f(s[1]) + FlatMap(s[2..], f)
  {
    assert s[1..][1..] == s[2..];
    Assoc(f(s[0]), f(s[1]), FlatMap(s[2..], f));
  }

  lemma {:induction false} MapCollected<T, U, V>(s: seq<T>, f: T -> Option<U>, g: U -> V, each: T -> seq<V>)
    requires forall x :: x in s ==> each(x) == if f(x).Some? then [g(f(x).value)] else []
    ensures Map(Collect(s, f), g) == FlatMap(s, each)
  {
    if s != [] {
      MapCollected(s[1..], f, g, each);
    }
  }

  function IdAt(port: string): Finding -> seq<string> {
    (f: Finding) => if EntryAt(port)(f).Some? then [IdOf(EntryAt(port)(f).value)] else []
  }

  lemma TwistedIds(fs: seq<Finding>, gs: seq<Finding>, port: string)
    requires Twisted(fs, gs, Twins)
    ensures Map(EntriesAt(fs, port), IdOf) == Map(EntriesAt(gs, port), IdOf)
  {
    MapCollected(fs, EntryAt(port), IdOf, IdAt(port));
    MapCollected(gs, EntryAt(port), IdOf, IdAt(port));
    TwistedFlat(fs, gs, Twins, IdAt(port));
  }

  /** A port is settled the same way from two arrangements of its entries with one sequence of ids. */
  lemma SettleArranged(q: Question, spec: PortSpec, es: seq<Entry>, es': seq<Entry>)
    requires es != [] && SameElements(es, es') && Map(es, IdOf) == Map(es', IdOf)
    ensures match (Settle(q, spec, es), Settle(q, spec, es'))
      case (Success(bs), Success(bs')) => SameElements(bs, bs')
      case (Failure(p), Failure(p')) => p == p'
      case _ => false
  {
    SameMembers(es, es');
    SettledIff(q, spec, es);
    SettledIff(q, spec, es');
    if Settleable(q, spec, es) { SettleableReorder(q, spec, es, es'); }
    if Settleable(q, spec, es') { SettleableReorder(q, spec, es', es); }
    if spec.cardinality.Single? {
      MapReorder(es, es', ArtifactOf);
      SortTextIff(Map(es, ArtifactOf), Map(es', ArtifactOf));
      assert |es| == 1 ==> es == es' by { assert es[0] in es'; }
    } else if Settleable(q, spec, es) {
      SettledRanks(q, spec, es);
      SettledRanks(q, spec, es');
      SortAtoms(q, spec, es, es');
      MapReorder(es, es', Ranker(q, spec, Sort(Map(es, PositionAtom(q, spec)), ByAtom)));
    } else {
      OrderRefusal(q, spec, es, es');
    }
  }

  lemma SortAtoms(q: Question, spec: PortSpec, es: seq<Entry>, es': seq<Entry>)
    requires SameElements(es, es')
    ensures Sort(Map(es, PositionAtom(q, spec)), ByAtom) == Sort(Map(es', PositionAtom(q, spec)), ByAtom)
  {
    var (a, b) := (Map(es, PositionAtom(q, spec)), Map(es', PositionAtom(q, spec)));
    MapReorder(es, es', PositionAtom(q, spec));
    assert Identifies(a, ByAtom) by {
      assert forall x :: ByAtom(x)[0] == x;
    }
    SortIdentified(a, b, ByAtom);
  }

  lemma OrderRefusal(q: Question, spec: PortSpec, es: seq<Entry>, es': seq<Entry>)
    requires SameElements(es, es') && Map(es, IdOf) == Map(es', IdOf)
    requires OrderEntries(q, spec, es).Failure?
    ensures OrderEntries(q, spec, es') == OrderEntries(q, spec, es)
  {
    SameMembers(es, es');
    if spec.ordering.Some? {
      var f := Positioner(q, spec, spec.ordering.value);
      CollectReorder(es, es', f);
      SameMembers(Collect(es, f), Collect(es', f));
      RepeatsReorder(Collect(es, f), Collect(es', f));
    }
  }

  lemma UsedPortsTwisted(fs: seq<Finding>, gs: seq<Finding>)
    requires Twisted(fs, gs, Twins)
    ensures UsedPorts(fs) == UsedPorts(gs)
  {
    TwistedElements(fs, gs, Twins);
    CollectReorder(fs, gs, PortIn);
    SameMembers(Collect(fs, PortIn), Collect(gs, PortIn));
    SortedSetDetermined(Collect(fs, PortIn), Collect(gs, PortIn));
  }

  lemma OutcomeTwisted(q: Question, fs: seq<Finding>, gs: seq<Finding>, port: string)
    requires Twisted(fs, gs, Twins) && port in UsedPorts(fs)
    ensures SameElements(BindingsFor(q, fs)(port), BindingsFor(q, gs)(port))
    ensures RefusalFor(q, fs)(port) == RefusalFor(q, gs)(port)
  {
    UsedPortIff(fs, port);
    TwistedElements(fs, gs, Twins);
    CollectReorder(fs, gs, EntryAt(port));
    TwistedIds(fs, gs, port);
    if PortOf(q.consumer.inputPorts, port).Some? {
      SettleArranged(q, PortOf(q.consumer.inputPorts, port).value, EntriesAt(fs, port), EntriesAt(gs, port));
    }
  }

  lemma PortsTwisted(q: Question, fs: seq<Finding>, gs: seq<Finding>)
    requires Twisted(fs, gs, Twins)
    ensures SameElements(AllBindings(q, fs), AllBindings(q, gs))
    ensures PortRefusals(q, fs) == PortRefusals(q, gs)
  {
    UsedPortsTwisted(fs, gs);
    forall port | port in UsedPorts(fs)
      ensures SameElements(BindingsFor(q, fs)(port), BindingsFor(q, gs)(port))
      ensures RefusalFor(q, fs)(port) == RefusalFor(q, gs)(port)
    {
      OutcomeTwisted(q, fs, gs, port);
    }
    FlatMapArranged(UsedPorts(fs), BindingsFor(q, fs), BindingsFor(q, gs));
    CollectAgrees(UsedPorts(fs), RefusalFor(q, fs), RefusalFor(q, gs));
  }

  lemma ProblemsTwisted(q: Question, fs: seq<Finding>, gs: seq<Finding>)
    requires Twisted(fs, gs, Twins)
    ensures Sort(AllProblems(q, fs), BySeverity) == Sort(AllProblems(q, gs), BySeverity)
  {
    PortsTwisted(q, fs, gs);
    TwistedProblems(fs, gs, []);
    SameMembers(AllBindings(q, fs), AllBindings(q, gs));
    TwistedElements(fs, gs, Twins);
    CollectReorder(fs, gs, ProblemIn);
    SameMembers(ProblemsOf(fs), ProblemsOf(gs));
    var (ps, ps') := (ProblemsOf(fs) + PortRefusals(q, fs), ProblemsOf(gs) + PortRefusals(q, gs));
    var (bound, failed) := (BoundPorts(AllBindings(q, fs)), FailedPorts(ps));
    assert bound == BoundPorts(AllBindings(q, gs));
    assert failed == FailedPorts(ps') by {
      assert forall p :: p in ps <==> p in ps';
    }
    var unbound := Collect(q.consumer.inputPorts, UnboundPort(q, bound, PendingPorts(PendingOf(fs)), failed));
    forall k ensures OfKey(ps + unbound, BySeverity, k) == OfKey(ps' + unbound, BySeverity, k) {
      TwistedProblems(fs, gs, k);
      OfKeyConcat(ProblemsOf(fs), PortRefusals(q, fs), BySeverity, k);
      OfKeyConcat(ProblemsOf(gs), PortRefusals(q, fs), BySeverity, k);
      OfKeyConcat(ps, unbound, BySeverity, k);
      OfKeyConcat(ps', unbound, BySeverity, k);
    }
    SortDetermined(ps + unbound, ps' + unbound, BySeverity);
  }

  /** A manifest is the same whichever way its bindings arrive. */
  lemma ManifestArranged(consumer: string, bs: seq<Binding>, bs': seq<Binding>, pending: seq<SymbolicBinding>)
    requires SameElements(bs, bs')
    ensures NewManifest(consumer, bs, pending) == NewManifest(consumer, bs', pending)
  {
    SortElements(bs, ByPlace);
    SortElements(bs', ByPlace);
    MapReorder(Sort(bs, ByPlace), Sort(bs', ByPlace), BindingIdOf);
    RepeatsReorder(Map(Sort(bs, ByPlace), BindingIdOf), Map(Sort(bs', ByPlace), BindingIdOf));
    if !Repeats(Map(Sort(bs, ByPlace), BindingIdOf)) {
      MapReorder(Sort(bs, ByPlace), bs, BindingIdOf);
      RepeatsReorder(Map(Sort(bs, ByPlace), BindingIdOf), Map(bs, BindingIdOf));
      DistinctIds(bs);
      DistinctKeysReorder(bs, bs', ByPlace);
      SortCanonical(bs, bs', ByPlace);
    }
  }

  lemma DistinctIds(bs: seq<Binding>)
    requires !Repeats(Map(bs, BindingIdOf))
    ensures DistinctKeys(bs, ByPlace)
  {
    RepeatsDistinct(Map(bs, BindingIdOf));
    forall i, j | 0 <= i < j < |bs| ensures ByPlace(bs[i]) != ByPlace(bs[j]) {
      assert Map(bs, BindingIdOf)[i] != Map(bs, BindingIdOf)[j];
      assert ByPlace(bs[i])[2] != ByPlace(bs[j])[2];
    }
  }

  lemma ConcludeTwisted(q: Question, fs: seq<Finding>, gs: seq<Finding>)
    requires Twisted(fs, gs, Twins)
    ensures Conclude(q, fs) == Conclude(q, gs)
  {
    ProblemsTwisted(q, fs, gs);
    PortsTwisted(q, fs, gs);
    TwistedProblems(fs, gs, []);
    ManifestArranged(q.consumer.taskId, AllBindings(q, fs), AllBindings(q, gs), PendingOf(fs));
  }

  // -------------------------------------------------------------------- any order of arrival

  lemma ExchangeIgnored(q: Question, rs: seq<DataRequirement>, accepted: AcceptedIndex, head: seq<AcceptedOutput>,
                        x: AcceptedOutput, y: AcceptedOutput, tail: seq<AcceptedOutput>)
    ensures Resolve(q, rs, accepted.(outputs := head + [x, y] + tail))
         == Resolve(q, rs, accepted.(outputs := head + [y, x] + tail))
  {
    var (a, a') := (accepted.(outputs := head + [x, y] + tail), accepted.(outputs := head + [y, x] + tail));
    ExamineAllExchanged(q, a, a', head, x, y, tail, Sort(rs, ById));
    ConcludeTwisted(q, ExamineAll(q, a, Sort(rs, ById)), ExamineAll(q, a', Sort(rs, ById)));
  }

  /** An output may move to the front of a block of the arrivals. */
  lemma {:induction false} MovedForward(q: Question, rs: seq<DataRequirement>, accepted: AcceptedIndex,
                                        head: seq<AcceptedOutput>, block: seq<AcceptedOutput>, x: AcceptedOutput,
                                        tail: seq<AcceptedOutput>)
    ensures Resolve(q, rs, accepted.(outputs := head + block + [x] + tail))
         == Resolve(q, rs, accepted.(outputs := head + [x] + block + tail))
    decreases |block|
  {
    if block == [] {
      assert head + block + [x] + tail == head + [x] + block + tail;
    } else {
      var (first, y) := (block[..|block| - 1], block[|block| - 1]);
      MoveParts(head, first, y, x, tail);
      assert block == first + [y];
      ExchangeIgnored(q, rs, accepted, head + first, y, x, tail);
      MovedForward(q, rs, accepted, head, first, x, [y] + tail);
    }
  }

  lemma MoveParts<T>(head: seq<T>, first: seq<T>, y: T, x: T, tail: seq<T>)
    ensures head + (first + [y]) + [x] + tail == head + first + [y, x] + tail
    ensures head + first + [x, y] + tail == head + first + [x] + ([y] + tail)
    ensures head + [x] + first + ([y] + tail) == head + [x] + (first + [y]) + tail
  {
  }

  lemma {:induction false} OutputsReordered(q: Question, rs: seq<DataRequirement>, accepted: AcceptedIndex,
                                            head: seq<AcceptedOutput>, s: seq<AcceptedOutput>, t: seq<AcceptedOutput>)
    requires SameElements(s, t)
    ensures Resolve(q, rs, accepted.(outputs := head + s)) == Resolve(q, rs, accepted.(outputs := head + t))
    decreases |s|
  {
    if s == [] {
      SameMembers(s, t);
    } else {
      var i := Locate(s, t);
      var x := s[0];
      OutputsReordered(q, rs, accepted, head + [x], s[1..], Without(t, i));
      MovedForward(q, rs, accepted, head, t[..i], x, t[i + 1..]);
      ReorderParts(head, s, t, i);
    }
  }

  lemma ReorderParts<T>(head: seq<T>, s: seq<T>, t: seq<T>, i: nat)
    requires s != [] && i < |t| && t[i] == s[0]
    ensures head + [s[0]] + s[1..] == head + s
    ensures head + t[..i] + [s[0]] + t[i + 1..] == head + t
    ensures head + [s[0]] + Without(t, i) == head + [s[0]] + t[..i] + t[i + 1..]
  {
  }

  /** Order independence. Requirements with distinct ids and accepted outputs may arrive in any order:
      the manifest, and with it the payload of its hash, and the refusals are the same. */
  lemma OrderIndependence(q: Question, rs: seq<DataRequirement>, rs': seq<DataRequirement>,
                          accepted: AcceptedIndex, outputs': seq<AcceptedOutput>)
    requires SameElements(rs, rs') && DistinctKeys(rs, ById)
    requires SameElements(accepted.outputs, outputs')
    ensures Resolve(q, rs', accepted.(outputs := outputs')) == Resolve(q, rs, accepted)
  {
    DistinctKeysReorder(rs, rs', ById);
    SortCanonical(rs, rs', ById);
    OutputsReordered(q, rs, accepted, [], accepted.outputs, outputs');
    assert [] + accepted.outputs == accepted.outputs && [] + outputs' == outputs';
    assert accepted.(outputs := accepted.outputs) == accepted;
  }
}
