/** Building blocks for the theorems about `Resolution.Resolve`. */
module ResolutionFacts {
  import opened InputModel
  import opened Ordering
  import opened Sequences
  import opened Resolution

  // --------------------------------------------------------------------- sorted sets of text

  lemma TextOrder(a: string, b: string)
    ensures KeyLe(ByText(a), ByText(b)) <==> TextLe(a, b)
    ensures KeyLt(ByText(a), ByText(b)) <==> TextLe(a, b) && a != b
  {
    TextLeTotal(a, b);
    assert ByText(a)[0] == Text(a) && ByText(b)[0] == Text(b);
    assert ByText(a)[1..] == [] == ByText(b)[1..];
  }

  lemma {:induction false} AddTextStrict(x: string, s: seq<string>)
    requires StrictlySorted(s, ByText)
    ensures StrictlySorted(AddText(x, s), ByText)
    ensures forall y :: y in AddText(x, s) <==> y == x || y in s
  {
    if s != [] && x != s[0] {
      TextOrder(x, s[0]);
      TextOrder(s[0], x);
      TextLeTotal(x, s[0]);
      if TextLe(x, s[0]) {
        forall j | 0 <= j < |s| ensures KeyLt(ByText(x), ByText(s[j])) {
          if j > 0 {
            KeyLeTransitive(ByText(x), ByText(s[0]), ByText(s[j]));
            KeyLeTotal(ByText(s[0]), ByText(s[j]));
          }
        }
      } else {
        AddTextStrict(x, s[1..]);
        var t := AddText(x, s[1..]);
        forall j | 0 <= j < |t| ensures KeyLt(ByText(s[0]), ByText(t[j])) {
          assert t[j] == x || t[j] in s[1..];
        }
        assert s == [s[0]] + s[1..];
      }
    }
  }

  /** `sorted(set(s))` is strictly increasing and has exactly the members of `s`. */
  lemma {:induction false} SortedSetStrict(s: seq<string>)
    ensures StrictlySorted(SortedSet(s), ByText)
    ensures forall y :: y in SortedSet(s) <==> y in s
  {
    if s != [] {
      SortedSetStrict(s[1..]);
      AddTextStrict(s[0], SortedSet(s[1..]));
    }
  }

  lemma {:induction false} StrictDetermined(s: seq<string>, t: seq<string>)
    requires StrictlySorted(s, ByText) && StrictlySorted(t, ByText)
    requires forall y :: y in s <==> y in t
    ensures s == t
  {
    assert s == [] <==> t == [] by {
      assert s != [] ==> s[0] in t;
      assert t != [] ==> t[0] in s;
    }
    if s != [] {
      assert s[0] in t && t[0] in s;
      KeyLeTotal(ByText(s[0]), ByText(t[0]));
      assert s[0] == t[0];
      forall y ensures y in s[1..] <==> y in t[1..] {
        assert y in s[1..] ==> KeyLt(ByText(s[0]), ByText(y));
        assert y in t[1..] ==> KeyLt(ByText(t[0]), ByText(y));
        assert y in s <==> y in t;
      }
      StrictDetermined(s[1..], t[1..]);
      assert s == [s[0]] + s[1..] && t == [t[0]] + t[1..];
    }
  }

  lemma SortedSetDetermined(s: seq<string>, t: seq<string>)
    requires forall y :: y in s <==> y in t
    ensures SortedSet(s) == SortedSet(t)
  {
    SortedSetStrict(s);
    SortedSetStrict(t);
    StrictDetermined(SortedSet(s), SortedSet(t));
  }

  lemma SortedSetDistinct(s: seq<string>)
    ensures Distinct(SortedSet(s))
  {
    SortedSetStrict(s);
  }

  // ------------------------------------------------------------------------------ findings

  /** Where a finding can come from. */
  lemma FindingOrigin(q: Question, accepted: AcceptedIndex, rs: seq<DataRequirement>, f: Finding)
    ensures f in ExamineAll(q, accepted, rs) <==> exists r :: r in rs && f in Examine(q, accepted, r)
  {
    FlatMapMember(rs, Examiner(q, accepted), f);
    if f in ExamineAll(q, accepted, rs) {
      var r :| r in rs && f in Examiner(q, accepted)(r);
      assert f in Examine(q, accepted, r);
    }
    if r :| r in rs && f in Examine(q, accepted, r) {
      assert f in Examiner(q, accepted)(r);
    }
  }

  /** Every entry names a declared port, and every waiting record its own requirement's port. */
  ghost predicate WellFound(q: Question, fs: seq<Finding>) {
    forall f :: f in fs ==>
      match f
      case Licensed(e) => PortOf(q.consumer.inputPorts, e.requirement.inputPort).Some?
      case Waiting(s, p) => p.kind == PendingProducer && p.inputPort == Some(s.inputPort)
      case Refused(p) => p.kind != PendingProducer
  }

  lemma WeighShape(q: Question, r: DataRequirement, spec: PortSpec, c: AcceptedOutput)
    ensures match Weigh(q, r, spec, c)
      case Licensed(e) => e.requirement == r && e.candidate == c
      case Waiting(_, _) => false
      case Refused(p) => p.kind != PendingProducer && p.inputPort == Some(r.inputPort)
  {
  }

  lemma ExamineWellFound(q: Question, accepted: AcceptedIndex, r: DataRequirement)
    ensures WellFound(q, Examine(q, accepted, r))
  {
    if r.consumerOccurrence == q.occurrence {
      var spec := PortOf(q.consumer.inputPorts, r.inputPort);
      if spec.Some? && r.producerOccurrence in accepted.completed && SelectByRevision(q, accepted, r).Success? {
        var cs := SelectByRevision(q, accepted, r).value;
        var w := Weigher(q, r, spec.value);
        forall f | f in Map(cs, w) ensures WellFound(q, [f]) {
          var i :| 0 <= i < |cs| && Map(cs, w)[i] == f;
          WeighShape(q, r, spec.value, cs[i]);
        }
        assert forall f :: f in Map(cs, w) ==> WellFound(q, [f]) && f in [f];
      }
    }
  }

  lemma ExamineAllWellFound(q: Question, accepted: AcceptedIndex, rs: seq<DataRequirement>)
    ensures WellFound(q, ExamineAll(q, accepted, rs))
  {
    forall f | f in ExamineAll(q, accepted, rs)
      ensures WellFound(q, [f])
    {
      FindingOrigin(q, accepted, rs, f);
      var r :| r in rs && f in Examine(q, accepted, r);
      ExamineWellFound(q, accepted, r);
    }
    assert forall f :: f in ExamineAll(q, accepted, rs) ==> WellFound(q, [f]) && f in [f];
  }

  lemma UsedPortIff(fs: seq<Finding>, port: string)
    ensures port in UsedPorts(fs) <==> EntriesAt(fs, port) != []
  {
    SortedSetStrict(Collect(fs, PortIn));
    CollectMember(fs, PortIn, port);
    if port in UsedPorts(fs) {
      var f :| f in fs && PortIn(f) == Some(port);
      CollectMember(fs, EntryAt(port), f.entry);
      assert EntryAt(port)(f) == Some(f.entry);
    }
    if EntriesAt(fs, port) != [] {
      var e := EntriesAt(fs, port)[0];
      CollectMember(fs, EntryAt(port), e);
      var f :| f in fs && EntryAt(port)(f) == Some(e);
      assert PortIn(f) == Some(port);
    }
  }

  lemma EntryOrigin(fs: seq<Finding>, port: string, e: Entry)
    ensures e in EntriesAt(fs, port) <==> Licensed(e) in fs && e.requirement.inputPort == port
  {
    CollectMember(fs, EntryAt(port), e);
    if e in EntriesAt(fs, port) {
      var f :| f in fs && EntryAt(port)(f) == Some(e);
      assert f == Licensed(e);
    }
    if Licensed(e) in fs && e.requirement.inputPort == port {
      assert EntryAt(port)(Licensed(e)) == Some(e);
    }
  }

  // ------------------------------------------------------------------------------ one port

  /** A settled port carries one binding per entry, in the entries' order. */
  lemma SettledBindings(q: Question, spec: PortSpec, es: seq<Entry>)
    requires Settle(q, spec, es).Success?
    ensures var bs := Settle(q, spec, es).value;
      |bs| == |es| && forall i :: 0 <= i < |es| ==> bs[i] == MakeBinding(q, es[i], bs[i].portOrdinal)
  {
  }

  /** The declared rule gives every entry one position of its own. */
  ghost predicate Rankable(q: Question, spec: PortSpec, es: seq<Entry>) {
    && spec.ordering.Some?
    && (forall e :: e in es ==> PositionKey(q, spec, spec.ordering.value, e).Some?)
    && !Repeats(Collect(es, Positioner(q, spec, spec.ordering.value)))
    && (spec.ordering == Some(Explicit) ==>
          var declared := ExplicitOrder(q.policy.explicitOrders, spec.portKey);
          declared.Some? && SameElements(declared.value, Map(es, IdOf)) && Distinct(declared.value))
  }

  ghost predicate Settleable(q: Question, spec: PortSpec, es: seq<Entry>) {
    match spec.cardinality
    case Single => |es| <= 1
    case Many => es != [] ==> Rankable(q, spec, es)
  }

  lemma SortTextIff(s: seq<string>, t: seq<string>)
    ensures Sort(s, ByText) == Sort(t, ByText) <==> SameElements(s, t)
  {
    SortElements(s, ByText);
    SortElements(t, ByText);
    if SameElements(s, t) {
      assert Identifies(s, ByText) by {
        assert forall x :: ByText(x)[0] == Text(x);
      }
      SortIdentified(s, t, ByText);
    }
  }

  lemma OrderedIff(q: Question, spec: PortSpec, es: seq<Entry>)
    ensures OrderEntries(q, spec, es).Success? <==> Rankable(q, spec, es)
    ensures OrderEntries(q, spec, es).Failure? ==> OrderEntries(q, spec, es).error.kind != PendingProducer
  {
    if spec.ordering.Some? {
      var f := Positioner(q, spec, spec.ordering.value);
      CollectAll(es, f);
      assert forall e :: f(e) == PositionKey(q, spec, spec.ordering.value, e);
      var declared := ExplicitOrder(q.policy.explicitOrders, spec.portKey);
      if declared.Some? {
        SortTextIff(declared.value, Map(es, IdOf));
        RepeatsDistinct(declared.value);
      }
    }
  }

  lemma SettledIff(q: Question, spec: PortSpec, es: seq<Entry>)
    requires es != []
    ensures Settle(q, spec, es).Success? <==> Settleable(q, spec, es)
    ensures Settle(q, spec, es).Failure? ==> Settle(q, spec, es).error.kind != PendingProducer
  {
    OrderedIff(q, spec, es);
  }

  /** Whether a port can be settled does not depend on the arrangement of its entries. */
  lemma SettleableReorder(q: Question, spec: PortSpec, es: seq<Entry>, es': seq<Entry>)
    requires SameElements(es, es')
    requires Settleable(q, spec, es)
    ensures Settleable(q, spec, es')
  {
    SameMembers(es, es');
    if spec.cardinality.Many? && es != [] {
      var f := Positioner(q, spec, spec.ordering.value);
      CollectReorder(es, es', f);
      RepeatsReorder(Collect(es, f), Collect(es', f));
      MapReorder(es, es', IdOf);
    }
  }
}
