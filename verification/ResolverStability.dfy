/** What a resolution does not depend on, and what it keeps as producers finish. */
module ResolverStability {
  import opened InputModel
  import opened Ordering
  import opened Sequences
  import opened Resolution
  import opened ResolverExactness
  import opened ResolverOrdering

  // ------------------------------------------------------------------------- non-interference

  /** Where the requirement follows authorised revisions, both authorise the same one, or none, at its place. */
  predicate SameAuthorisation(accepted: AcceptedIndex, accepted': AcceptedIndex, r: DataRequirement) {
    var place := (r.producerOccurrence, r.outputPort);
    r.revisionPolicy.FollowAuthorized? ==>
      && (place in accepted.authorized <==> place in accepted'.authorized)
      && (place in accepted.authorized ==> accepted.authorized[place] == accepted'.authorized[place])
  }

  lemma SameOffersSameFindings(q: Question, accepted: AcceptedIndex, accepted': AcceptedIndex, r: DataRequirement)
    requires r.producerOccurrence in accepted.completed <==> r.producerOccurrence in accepted'.completed
    requires SameAuthorisation(accepted, accepted', r)
    requires Ready(q, accepted, r) ==> Offers(q, accepted, r) == Offers(q, accepted', r)
    ensures Examine(q, accepted, r) == Examine(q, accepted', r)
  {
    if Ready(q, accepted, r) {
      SelectedAreOffers(q, accepted, r);
      SelectedAreOffers(q, accepted', r);
      assert SelectByRevision(q, accepted, r) == SelectByRevision(q, accepted', r);
    }
  }

  /** Non-interference. Resolution reads the accepted outputs only through what the revision policy
      leaves for each ready requirement, and authorisations only at the places of requirements that follow
      them, so whatever else was accepted or authorised changes nothing. */
  lemma NonInterference(q: Question, rs: seq<DataRequirement>, accepted: AcceptedIndex, accepted': AcceptedIndex)
    requires accepted.completed == accepted'.completed
    requires forall r :: r in rs ==> SameAuthorisation(accepted, accepted', r)
    requires forall r :: r in rs && Ready(q, accepted, r) ==> Offers(q, accepted, r) == Offers(q, accepted', r)
    ensures Resolve(q, rs, accepted) == Resolve(q, rs, accepted')
  {
    var sorted := Sort(rs, ById);
    SortMembers(rs, ById);
    forall r | r in sorted ensures Examiner(q, accepted)(r) == Examiner(q, accepted')(r) {
      SameOffersSameFindings(q, accepted, accepted', r);
    }
    FlatMapAgrees(sorted, Examiner(q, accepted), Examiner(q, accepted'));
  }

  /** Outputs at producer ports that no requirement names, and outputs at other revisions of an input
      whose revision is fixed, may be accepted at any time without changing the result. */
  lemma UnrelatedOutputsIgnored(q: Question, rs: seq<DataRequirement>, accepted: AcceptedIndex,
                                head: seq<AcceptedOutput>, extra: seq<AcceptedOutput>, tail: seq<AcceptedOutput>)
    requires accepted.outputs == head + tail
    requires forall r, x :: r in rs && x in extra && Ready(q, accepted, r) ==>
               || x.producerOccurrence != r.producerOccurrence || x.outputPort != r.outputPort
               || !MayTake(q.policy, accepted, r, x.sourceRevision)
    ensures Resolve(q, rs, accepted.(outputs := head + extra + tail)) == Resolve(q, rs, accepted)
  {
    var accepted' := accepted.(outputs := head + extra + tail);
    forall r | r in rs && Ready(q, accepted, r) ensures Offers(q, accepted, r) == Offers(q, accepted', r) {
      var (p, p') := (OfferedTo(q, accepted, r), OfferedTo(q, accepted', r));
      assert forall x :: p(x) <==> p'(x);
      FilterConcat(head, tail, p);
      FilterConcat(head + extra, tail, p);
      FilterConcat(head, extra, p);
      FilterNone(extra, p);
      FilterAgrees(accepted'.outputs, p, p');
    }
    NonInterference(q, rs, accepted, accepted');
  }

  /** A pinned input is never overruled: where every requirement is pinned, authorising whatever revisions,
      anywhere, leaves the result as it was. */
  lemma AuthorisationsIgnored(q: Question, rs: seq<DataRequirement>, accepted: AcceptedIndex,
                              authorized: map<(string, string), string>)
    requires forall r :: r in rs ==> r.revisionPolicy.Pinned?
    ensures Resolve(q, rs, accepted.(authorized := authorized)) == Resolve(q, rs, accepted)
  {
    var accepted' := accepted.(authorized := authorized);
    forall r | r in rs ensures Offers(q, accepted, r) == Offers(q, accepted', r) {
      FilterAgrees(accepted.outputs, OfferedTo(q, accepted, r), OfferedTo(q, accepted', r));
    }
    NonInterference(q, rs, accepted, accepted');
  }

  // --------------------------------------------------------------------------------- progress

  ghost predicate Subsequence<T>(s: seq<T>, t: seq<T>)
    decreases |t|
  {
    || s == []
    || (t != [] && s[0] == t[0] && Subsequence(s[1..], t[1..]))
    || (t != [] && Subsequence(s, t[1..]))
  }

  lemma {:induction false} SubsequenceMember<T>(s: seq<T>, t: seq<T>, x: T)
    requires Subsequence(s, t) && x in s
    ensures x in t
    decreases |t|
  {
    if s[0] == t[0] && Subsequence(s[1..], t[1..]) {
      if x != s[0] { SubsequenceMember(s[1..], t[1..], x); }
    } else {
      SubsequenceMember(s, t[1..], x);
    }
  }

  lemma {:induction false} SubsequenceOne<T>(x: T, t: seq<T>)
    requires x in t
    ensures Subsequence([x], t)
  {
    if t[0] != x {
      SubsequenceOne(x, t[1..]);
    } else {
      assert [x][1..] == [];
    }
  }

  lemma {:induction false} SubsequenceConcat<T>(a: seq<T>, b: seq<T>, c: seq<T>, d: seq<T>)
    requires Subsequence(a, b) && Subsequence(c, d)
    ensures Subsequence(a + c, b + d)
    decreases |b|
  {
    if b == [] {
      assert a + c == c && b + d == d;
    } else {
      assert (b + d)[1..] == b[1..] + d && (b + d)[0] == b[0];
      if a != [] && a[0] == b[0] && Subsequence(a[1..], b[1..]) {
        SubsequenceConcat(a[1..], b[1..], c, d);
        assert (a + c)[1..] == a[1..] + c;
      } else {
        SubsequenceConcat(a, b[1..], c, d);
      }
    }
  }

  lemma {:induction false} SubsequenceSelf<T>(s: seq<T>)
    ensures Subsequence(s, s)
  {
    if s != [] {
      SubsequenceSelf(s[1..]);
    }
  }

  lemma {:induction false} SubsequenceMap<T, U>(s: seq<T>, t: seq<T>, f: T -> U)
    requires Subsequence(s, t)
    ensures Subsequence(Map(s, f), Map(t, f))
    decreases |t|
  {
    if s != [] {
      assert Map(t, f)[1..] == Map(t[1..], f);
      if s[0] == t[0] && Subsequence(s[1..], t[1..]) {
        SubsequenceMap(s[1..], t[1..], f);
        assert Map(s, f)[1..] == Map(s[1..], f);
      } else {
        SubsequenceMap(s, t[1..], f);
      }
    }
  }

  lemma {:induction false} SubsequenceFilter<T>(s: seq<T>, t: seq<T>, p: T -> bool)
    requires Subsequence(s, t)
    ensures Subsequence(Filter(s, p), Filter(t, p))
    decreases |t|
  {
    if s != [] {
      if s[0] == t[0] && Subsequence(s[1..], t[1..]) {
        SubsequenceFilter(s[1..], t[1..], p);
        if p(s[0]) {
          assert Filter(s, p)[1..] == Filter(s[1..], p) && Filter(t, p)[1..] == Filter(t[1..], p);
        }
      } else {
        SubsequenceFilter(s, t[1..], p);
        if p(t[0]) {
          assert Filter(t, p)[1..] == Filter(t[1..], p);
        }
      }
    }
  }

  lemma {:induction false} SubsequenceFlatMap<T, U>(s: seq<T>, f: T -> seq<U>, g: T -> seq<U>)
    requires forall x :: x in s ==> f(x) == g(x) || f(x) == []
    ensures Subsequence(FlatMap(s, f), FlatMap(s, g))
  {
    if s != [] {
      SubsequenceFlatMap(s[1..], f, g);
      SubsequenceSelf(g(s[0]));
      SubsequenceConcat(f(s[0]), g(s[0]), FlatMap(s[1..], f), FlatMap(s[1..], g));
    }
  }

  lemma {:induction false} InsertSubsequence<T>(x: T, s: seq<T>, t: seq<T>, key: T -> Key)
    requires Sorted(t, key) && Subsequence(s, t)
    ensures Subsequence(Insert(x, s, key), Insert(x, t, key))
    ensures Subsequence(s, Insert(x, t, key))
    decreases |t|
  {
    var u := Insert(x, t, key);
    if s == [] {
      InsertElements(x, t, key);
      assert x in multiset(u);
      SubsequenceOne(x, u);
      assert Insert(x, s, key) == [x];
    } else if KeyLe(key(x), key(t[0])) {
      SubsequenceMember(s, t, s[0]);
      var j :| 0 <= j < |t| && t[j] == s[0];
      if j > 0 { KeyLeTransitive(key(x), key(t[0]), key(t[j])); }
      assert u[1..] == t && ([x] + s)[1..] == s;
    } else {
      assert u[1..] == Insert(x, t[1..], key);
      if s[0] == t[0] && Subsequence(s[1..], t[1..]) {
        InsertSubsequence(x, s[1..], t[1..], key);
        assert Insert(x, s, key)[1..] == Insert(x, s[1..], key);
      } else {
        InsertSubsequence(x, s, t[1..], key);
      }
    }
  }

  /** A stable sort keeps a part of the arrivals in the order it gives the whole. */
  lemma {:induction false} SortSubsequence<T>(s: seq<T>, t: seq<T>, key: T -> Key)
    requires Subsequence(s, t)
    ensures Subsequence(Sort(s, key), Sort(t, key))
    decreases |t|
  {
    if s != [] {
      SortSorted(t[1..], key);
      if s[0] == t[0] && Subsequence(s[1..], t[1..]) {
        SortSubsequence(s[1..], t[1..], key);
        InsertSubsequence(t[0], Sort(s[1..], key), Sort(t[1..], key), key);
      } else {
        SortSubsequence(s, t[1..], key);
        InsertSubsequence(t[0], Sort(s, key), Sort(t[1..], key), key);
      }
    }
  }

  function FromFinished(accepted: AcceptedIndex): AcceptedOutput -> bool {
    (c: AcceptedOutput) => c.producerOccurrence in accepted.completed
  }

  /** Further producers finish, with whatever they accepted; nothing else changes. */
  ghost predicate Advances(before: AcceptedIndex, after: AcceptedIndex) {
    && before.completed <= after.completed
    && before.authorized == after.authorized
    && Filter(before.outputs, FromFinished(before)) == Filter(after.outputs, FromFinished(before))
  }

  lemma OffersKept(q: Question, before: AcceptedIndex, after: AcceptedIndex, r: DataRequirement)
    requires Advances(before, after) && r.producerOccurrence in before.completed
    ensures Offers(q, before, r) == Offers(q, after, r)
  {
    var (p, p') := (OfferedTo(q, before, r), OfferedTo(q, after, r));
    FilterFilter(before.outputs, FromFinished(before), p, p);
    FilterFilter(after.outputs, FromFinished(before), p', p');
    FilterAgrees(Filter(after.outputs, FromFinished(before)), p, p');
  }

  lemma PairsGrow(q: Question, rs: seq<DataRequirement>, before: AcceptedIndex, after: AcceptedIndex, port: string)
    requires Advances(before, after)
    ensures Subsequence(PairsAt(q, rs, before, port), PairsAt(q, rs, after, port))
  {
    forall r | r in rs ensures Pairing(q, before)(r) == Pairing(q, after)(r) || Pairing(q, before)(r) == [] {
      if Ready(q, before, r) { OffersKept(q, before, after, r); }
    }
    SubsequenceFlatMap(rs, Pairing(q, before), Pairing(q, after));
    SubsequenceFilter(Pairs(q, rs, before), Pairs(q, rs, after), FeedsPort(port));
  }

  lemma AwaitedPort(q: Question, rs: seq<DataRequirement>, accepted: AcceptedIndex, r: DataRequirement)
    requires r in rs && Addressed(q, r) && r.producerOccurrence !in accepted.completed
    ensures r.inputPort in PendingPorts(Awaited(q, rs, accepted))
  {
    var s := Awaiting(q, accepted)(r).value;
    CollectMember(rs, Awaiting(q, accepted), s);
    assert s in Awaited(q, rs, accepted);
  }

  lemma {:induction false} PairsUnchanged(q: Question, rs: seq<DataRequirement>, before: AcceptedIndex,
                                          after: AcceptedIndex, port: string)
    requires Advances(before, after)
    requires port !in PendingPorts(Awaited(q, rs, before))
    ensures PairsAt(q, rs, before, port) == PairsAt(q, rs, after, port)
  {
    if rs != [] {
      var r := rs[0];
      CollectConcat([r], rs[1..], Awaiting(q, before));
      assert rs == [r] + rs[1..];
      PairsUnchanged(q, rs[1..], before, after, port);
      FilterConcat(Pairing(q, before)(r), Pairs(q, rs[1..], before), FeedsPort(port));
      FilterConcat(Pairing(q, after)(r), Pairs(q, rs[1..], after), FeedsPort(port));
      if Ready(q, before, r) {
        OffersKept(q, before, after, r);
      } else {
        if Addressed(q, r) {
          AwaitedPort(q, rs, before, r);
        }
        forall e | e in Pairing(q, after)(r) ensures !FeedsPort(port)(e) {
          var i :| 0 <= i < |Offers(q, after, r)| && e == EntryMaker(q, r)(Offers(q, after, r)[i]);
        }
        FilterNone(Pairing(q, after)(r), FeedsPort(port));
      }
    }
  }

  lemma {:induction false} AwaitedShrinks(
    q: Question, rs: seq<DataRequirement>, before: AcceptedIndex, after: AcceptedIndex)
    requires Advances(before, after)
    ensures multiset(Awaited(q, rs, after)) <= multiset(Awaited(q, rs, before))
  {
    if rs != [] {
      AwaitedShrinks(q, rs[1..], before, after);
    }
  }

  lemma NumberedUnranked(q: Question, listed: seq<Entry>)
    ensures Map(Numbered(q, listed), Unranked) == Map(listed, AtZero(q))
  {
  }

  /** Progress. When further producers finish and both resolutions give manifests, the pending records
      only disappear, a port that had nothing pending keeps exactly its bindings, and on every port the
      earlier bindings reappear with the same identity and in the same relative order. */
  lemma Progress(q: Question, rs: seq<DataRequirement>, before: AcceptedIndex, after: AcceptedIndex, port: string)
    requires Advances(before, after)
    requires HasManifest(Resolve(q, rs, before)) && HasManifest(Resolve(q, rs, after))
    requires PortOf(q.consumer.inputPorts, port).Some?
    ensures var (m, m') := (Resolve(q, rs, before).manifest.value, Resolve(q, rs, after).manifest.value);
      && multiset(m'.pending) <= multiset(m.pending)
      && (port !in PendingPorts(m.pending) ==> ForPort(m', port) == ForPort(m, port))
      && Subsequence(Map(ForPort(m, port), Unranked), Map(ForPort(m', port), Unranked))
  {
    var spec := PortOf(q.consumer.inputPorts, port).value;
    ResolverExact(q, rs, before);
    ResolverExact(q, rs, after);
    AwaitedShrinks(q, rs, before, after);
    ForPortExact(q, rs, before, port);
    ForPortExact(q, rs, after, port);
    PairsGrow(q, rs, before, after, port);
    var (early, late) := (PairsAt(q, rs, before, port), PairsAt(q, rs, after, port));
    SortSubsequence(early, late, Position(q, spec));
    SubsequenceMap(Sort(early, Position(q, spec)), Sort(late, Position(q, spec)), AtZero(q));
    NumberedUnranked(q, Sort(early, Position(q, spec)));
    NumberedUnranked(q, Sort(late, Position(q, spec)));
    var m := Resolve(q, rs, before).manifest.value;
    if port !in PendingPorts(m.pending) {
      SameMembers(m.pending, Awaited(q, rs, before));
      PairsUnchanged(q, rs, before, after, port);
    }
  }
}
